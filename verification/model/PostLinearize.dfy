/** PostLinearize (src/cluster_linearize.h), with its groups as linked lists of transactions in a
    circular linked list of groups. */
module PostLinearizing {
  import opened FeeFracs
  import opened Positions
  import opened Clusters
  import opened Chunkings
  import opened Diagrams
  import opened DepGraphs
  import opened PostGroups
  import opened PostTrees
  import opened Reversals

  /** Index of the sentinel, which is also the mark of having no previous transaction. */
  const SENTINEL: nat := 0

  /** What is known about a transaction t, at index t + 1.  All but `prevTx` is only used for the last
      transaction of a group. */
  datatype TxEntry = TxEntry(prevTx: nat, firstTx: nat, prevGroup: nat, group: set<nat>, deps: set<nat>, feerate: FeeFrac)

  /** All dependencies of a group. */
  function Deps(g: Cluster, c: seq<nat>): set<nat> {
    if c == [] then {} else g.Anc(c[0]) + Deps(g, c[1..])
  }

  lemma {:induction false} DepsConcat(g: Cluster, a: seq<nat>, b: seq<nat>)
    ensures Deps(g, a + b) == Deps(g, a) + Deps(g, b)
  {
    if a == [] {
      assert a + b == b;
    } else {
      assert (a + b)[1..] == a[1..] + b;
      DepsConcat(g, a[1..], b);
    }
  }

  lemma DepsOne(g: Cluster, x: nat)
    ensures Deps(g, [x]) == g.Anc(x)
  {
    var c := [x];
    assert c[1..] == [] && Deps(g, c[1..]) == {};
  }

  lemma {:induction false} DepsOverlap(g: Cluster, c: seq<nat>, p: seq<nat>)
    ensures Deps(g, c) * Elems(p) != {} <==> DependsOn(g, c, p)
  {
    if c != [] {
      DepsOverlap(g, c[1..], p);
      assert c == [c[0]] + c[1..];
      assert Deps(g, c) * Elems(p) == g.Anc(c[0]) * Elems(p) + Deps(g, c[1..]) * Elems(p);
      if DependsOn(g, c, p) {
        var x :| x in c && g.Anc(x) * Elems(p) != {};
        assert x == c[0] || x in c[1..];
      }
      if DependsOn(g, c[1..], p) {
        var x :| x in c[1..] && g.Anc(x) * Elems(p) != {};
        assert x in c;
      }
    }
  }

  // ----- the representation of a list of groups

  /** Index of the last transaction of a group. */
  function Tail(c: seq<nat>): nat {
    if c == [] then SENTINEL else c[|c| - 1] + 1
  }

  /** Index of what comes at position k of the list; the sentinel closes the circle. */
  function Node(cs: seq<seq<nat>>, k: nat): nat {
    if k < |cs| then Tail(cs[k]) else SENTINEL
  }

  function PrevNode(cs: seq<seq<nat>>, k: nat): nat
    requires k <= |cs|
  {
    if k == 0 then SENTINEL else Tail(cs[k - 1])
  }

  ghost predicate InRange(es: seq<TxEntry>, c: seq<nat>) {
    forall k | 0 <= k < |c| :: c[k] + 1 < |es|
  }

  /** The transactions of a group are linked from the last to the first. */
  ghost predicate TxLinked(es: seq<TxEntry>, c: seq<nat>) {
    && c != [] && NoDup(c) && InRange(es, c)
    && es[c[0] + 1].prevTx == SENTINEL
    && forall k | 0 < k < |c| :: es[c[k] + 1].prevTx == c[k - 1] + 1
  }

  /** What the last transaction of a group knows about the group. */
  datatype GroupInfo = GroupInfo(firstTx: nat, group: set<nat>, deps: set<nat>, feerate: FeeFrac)

  function InfoIn(e: TxEntry): GroupInfo {
    GroupInfo(e.firstTx, e.group, e.deps, e.feerate)
  }

  function InfoOf(g: Cluster, c: seq<nat>): GroupInfo
    requires c != []
  {
    GroupInfo(c[0] + 1, Elems(c), Deps(g, c), SeqRate(g, c))
  }

  ghost predicate GroupData(g: Cluster, es: seq<TxEntry>, c: seq<nat>)
    requires c != [] && InRange(es, c)
  {
    InfoIn(es[Tail(c)]) == InfoOf(g, c)
  }

  ghost predicate GroupOk(g: Cluster, es: seq<TxEntry>, c: seq<nat>) {
    TxLinked(es, c) && GroupData(g, es, c)
  }

  /** No two groups share a transaction. */
  ghost predicate Apart(cs: seq<seq<nat>>) {
    forall j, k | 0 <= j < k < |cs| :: Elems(cs[j]) !! Elems(cs[k])
  }

  ghost predicate GroupLinked(es: seq<TxEntry>, cs: seq<seq<nat>>) {
    forall k | 0 <= k <= |cs| :: Node(cs, k) < |es| && es[Node(cs, k)].prevGroup == PrevNode(cs, k)
  }

  ghost predicate AllGroupsOk(g: Cluster, es: seq<TxEntry>, cs: seq<seq<nat>>) {
    forall k | 0 <= k < |cs| :: GroupOk(g, es, cs[k])
  }

  /** The entries represent the list of groups. */
  ghost predicate Represents(g: Cluster, es: seq<TxEntry>, cs: seq<seq<nat>>) {
    && |es| > 0 && es[SENTINEL].feerate == EMPTY
    && AllGroupsOk(g, es, cs) && Apart(cs) && GroupLinked(es, cs)
  }

  lemma TailInGroup(g: Cluster, es: seq<TxEntry>, c: seq<nat>)
    requires TxLinked(es, c)
    ensures Tail(c) > 0 && Tail(c) - 1 in Elems(c) && Tail(c) < |es|
  {
  }

  lemma NodesDistinct(g: Cluster, es: seq<TxEntry>, cs: seq<seq<nat>>, j: nat, k: nat)
    requires AllGroupsOk(g, es, cs) && Apart(cs) && j < k <= |cs|
    ensures Node(cs, j) != Node(cs, k)
  {
    TailInGroup(g, es, cs[j]);
    if k < |cs| {
      TailInGroup(g, es, cs[k]);
      assert Elems(cs[j]) !! Elems(cs[k]);
    }
  }

  /** A group whose entries agree but for the link to the previous group is still in order. */
  lemma GroupUntouched(g: Cluster, es: seq<TxEntry>, new_: seq<TxEntry>, c: seq<nat>)
    requires GroupOk(g, es, c) && |new_| == |es|
    requires forall x | x in c :: new_[x + 1] == es[x + 1].(prevGroup := new_[x + 1].prevGroup)
    ensures GroupOk(g, new_, c)
  {
    forall k | 0 <= k < |c| ensures new_[c[k] + 1] == es[c[k] + 1].(prevGroup := new_[c[k] + 1].prevGroup) {
      assert c[k] in c;
    }
  }

  // ----- inserting a new group

  function Inserted(es: seq<TxEntry>, idx: nat, deps: set<nat>, feerate: FeeFrac): seq<TxEntry>
    requires idx + 1 < |es|
  {
    var cur := idx + 1;
    var first := es[cur := TxEntry(SENTINEL, cur, es[SENTINEL].prevGroup, {idx}, deps, feerate)];
    first[SENTINEL := first[SENTINEL].(prevGroup := cur)]
  }

  lemma InsertRepresents(g: Cluster, es: seq<TxEntry>, cs: seq<seq<nat>>, idx: nat)
    requires Represents(g, es, cs) && idx + 1 < |es|
    requires forall k | 0 <= k < |cs| :: idx !in Elems(cs[k])
    ensures Represents(g, Inserted(es, idx, g.Anc(idx), g.Rate(idx)), cs + [[idx]])
  {
    var new_, all := Inserted(es, idx, g.Anc(idx), g.Rate(idx)), cs + [[idx]];
    ElemsOne(idx);
    SingletonInfo(g, idx);
    SingletonGroup(g, es, [idx], idx);
    forall k | 0 <= k < |all| ensures GroupOk(g, new_, all[k]) {
      if k < |cs| {
        assert GroupOk(g, es, cs[k]);
        InsertUntouched(g, es, cs[k], idx);
      }
    }
    InsertLinked(g, es, cs, idx, new_);
  }

  lemma SingletonInfo(g: Cluster, idx: nat)
    ensures InfoOf(g, [idx]) == GroupInfo(idx + 1, {idx}, g.Anc(idx), g.Rate(idx))
  {
    ElemsOne(idx);
    DepsOne(g, idx);
    SeqRateOne(g, idx);
  }

  lemma SingletonGroup(g: Cluster, es: seq<TxEntry>, c: seq<nat>, idx: nat)
    requires idx + 1 < |es| && |c| == 1 && c[0] == idx
    requires InfoOf(g, c) == GroupInfo(idx + 1, {idx}, g.Anc(idx), g.Rate(idx))
    ensures GroupOk(g, Inserted(es, idx, g.Anc(idx), g.Rate(idx)), c)
  {
    InsertedAt(es, idx, g.Anc(idx), g.Rate(idx));
    assert Tail(c) == idx + 1;
  }

  lemma InsertedAt(es: seq<TxEntry>, idx: nat, deps: set<nat>, feerate: FeeFrac)
    requires idx + 1 < |es|
    ensures Inserted(es, idx, deps, feerate)[idx + 1] ==
            TxEntry(SENTINEL, idx + 1, es[SENTINEL].prevGroup, {idx}, deps, feerate)
    ensures forall i | 0 < i < |es| && i != idx + 1 :: Inserted(es, idx, deps, feerate)[i] == es[i]
    ensures Inserted(es, idx, deps, feerate)[SENTINEL] == es[SENTINEL].(prevGroup := idx + 1)
  {
  }

  lemma InsertUntouched(g: Cluster, es: seq<TxEntry>, c: seq<nat>, idx: nat)
    requires GroupOk(g, es, c) && idx + 1 < |es| && idx !in Elems(c)
    ensures GroupOk(g, Inserted(es, idx, g.Anc(idx), g.Rate(idx)), c)
  {
    var new_ := Inserted(es, idx, g.Anc(idx), g.Rate(idx));
    forall x | x in c ensures new_[x + 1] == es[x + 1] {
      assert x in Elems(c);
    }
    GroupUntouched(g, es, new_, c);
  }

  lemma InsertLinked(g: Cluster, es: seq<TxEntry>, cs: seq<seq<nat>>, idx: nat, new_: seq<TxEntry>)
    requires Represents(g, es, cs) && idx + 1 < |es|
    requires forall k | 0 <= k < |cs| :: idx !in Elems(cs[k])
    requires new_ == Inserted(es, idx, g.Anc(idx), g.Rate(idx))
    ensures GroupLinked(new_, cs + [[idx]])
  {
    var all, n := cs + [[idx]], |cs|;
    assert Tail([idx]) == idx + 1;
    forall k | 0 <= k <= |all| ensures Node(all, k) < |new_| && new_[Node(all, k)].prevGroup == PrevNode(all, k) {
      if k < n {
        assert all[k] == cs[k] && Node(all, k) == Node(cs, k) && PrevNode(all, k) == PrevNode(cs, k);
        assert GroupOk(g, es, cs[k]);
        TailInGroup(g, es, cs[k]);
        assert new_[Node(cs, k)] == es[Node(cs, k)];
      } else if k == n {
        assert Node(all, k) == idx + 1 && PrevNode(all, k) == PrevNode(cs, n) && Node(cs, n) == SENTINEL;
      }
    }
  }

  // ----- merging the previous group into the current one

  function MergedEntries(es: seq<TxEntry>, cur: nat, prev: nat): seq<TxEntry>
    requires cur < |es| && prev < |es| && es[cur].firstTx < |es|
  {
    var first := es[cur].firstTx;
    var joined := es[cur := es[cur].(group := es[cur].group + es[prev].group, deps := es[cur].deps + es[prev].deps,
                                     feerate := es[cur].feerate.Plus(es[prev].feerate))];
    var linked := joined[first := joined[first].(prevTx := prev)];
    linked[cur := linked[cur].(firstTx := linked[prev].firstTx, prevGroup := linked[prev].prevGroup)]
  }

  /** What merging does to each entry. */
  lemma MergedAt(es: seq<TxEntry>, cur: nat, prev: nat, i: nat)
    requires cur < |es| && prev < |es| && es[cur].firstTx < |es| && cur != prev && i < |es|
    ensures var e := MergedEntries(es, cur, prev)[i];
            && e.prevTx == (if i == es[cur].firstTx then prev else es[i].prevTx)
            && (if i == cur then
                  && e.firstTx == es[prev].firstTx && e.prevGroup == es[prev].prevGroup
                  && e.group == es[cur].group + es[prev].group && e.deps == es[cur].deps + es[prev].deps
                  && e.feerate == es[cur].feerate.Plus(es[prev].feerate)
                else
                  e == es[i].(prevTx := e.prevTx))
  {
  }

  lemma MergedGroupOk(g: Cluster, es: seq<TxEntry>, last: seq<nat>, cur: seq<nat>)
    requires GroupOk(g, es, last) && GroupOk(g, es, cur) && Elems(last) !! Elems(cur)
    ensures GroupOk(g, MergedEntries(es, Tail(cur), Tail(last)), last + cur)
  {
    TailInGroup(g, es, last);
    TailInGroup(g, es, cur);
    MergedAt(es, Tail(cur), Tail(last), Tail(cur));
    MergedLinked(g, es, last, cur);
    MergedData(g, last, cur);
  }

  lemma MergedData(g: Cluster, last: seq<nat>, cur: seq<nat>)
    requires last != [] && cur != []
    ensures Tail(last + cur) == Tail(cur)
    ensures InfoOf(g, last + cur) == GroupInfo(InfoOf(g, last).firstTx, InfoOf(g, cur).group + InfoOf(g, last).group,
                                               InfoOf(g, cur).deps + InfoOf(g, last).deps,
                                               InfoOf(g, cur).feerate.Plus(InfoOf(g, last).feerate))
  {
    MergedDeps(g, last, cur);
    MergedRate(g, last, cur);
    ElemsConcat(last, cur);
  }

  lemma MergedDeps(g: Cluster, last: seq<nat>, cur: seq<nat>)
    ensures Deps(g, last + cur) == Deps(g, cur) + Deps(g, last)
  {
    DepsConcat(g, last, cur);
  }

  lemma MergedRate(g: Cluster, last: seq<nat>, cur: seq<nat>)
    ensures SeqRate(g, last + cur) == SeqRate(g, cur).Plus(SeqRate(g, last))
  {
    SeqRateConcat(g, last, cur);
    PlusLaws(SeqRate(g, cur), SeqRate(g, last), EMPTY);
  }

  lemma MergedLinked(g: Cluster, es: seq<TxEntry>, last: seq<nat>, cur: seq<nat>)
    requires GroupOk(g, es, last) && GroupOk(g, es, cur) && Elems(last) !! Elems(cur)
    requires Tail(cur) != Tail(last)
    ensures TxLinked(MergedEntries(es, Tail(cur), Tail(last)), last + cur)
  {
    var new_, m := MergedEntries(es, Tail(cur), Tail(last)), last + cur;
    NoDupConcat(last, cur);
    forall k | 0 <= k < |m|
      ensures m[k] + 1 < |new_| && new_[m[k] + 1].prevTx == if k == 0 then SENTINEL else m[k - 1] + 1
    {
      LinkAt(g, es, last, cur, k);
    }
    LinkAt(g, es, last, cur, 0);
  }

  lemma LinkAt(g: Cluster, es: seq<TxEntry>, last: seq<nat>, cur: seq<nat>, k: nat)
    requires GroupOk(g, es, last) && GroupOk(g, es, cur) && NoDup(last + cur)
    requires Tail(cur) != Tail(last) && k < |last + cur|
    ensures var m := last + cur;
            && m[k] + 1 < |es|
            && MergedEntries(es, Tail(cur), Tail(last))[m[k] + 1].prevTx == if k == 0 then SENTINEL else m[k - 1] + 1
  {
    var m := last + cur;
    assert m[|last|] == cur[0];
    if k < |last| {
      assert m[k] == last[k] && m[k] != m[|last|];
    } else {
      assert m[k] == cur[k - |last|];
    }
    MergedAt(es, Tail(cur), Tail(last), m[k] + 1);
  }

  lemma MergeRepresents(g: Cluster, es: seq<TxEntry>, init: seq<seq<nat>>, last: seq<nat>, cur: seq<nat>, after: seq<seq<nat>>)
    requires Represents(g, es, init + [last, cur] + after)
    ensures Tail(cur) < |es| && Tail(last) < |es| && es[Tail(cur)].firstTx < |es|
    ensures Represents(g, MergedEntries(es, Tail(cur), Tail(last)), init + [last + cur] + after)
  {
    var all, less, n := init + [last, cur] + after, init + [last + cur] + after, |init|;
    assert all[n] == last && all[n + 1] == cur;
    assert GroupOk(g, es, last) && GroupOk(g, es, cur);
    assert Elems(last) !! Elems(cur);
    TailInGroup(g, es, last);
    TailInGroup(g, es, cur);
    var new_ := MergedEntries(es, Tail(cur), Tail(last));
    MergedGroupOk(g, es, last, cur);
    ElemsConcat(last, cur);
    forall k | 0 <= k < |less| ensures GroupOk(g, new_, less[k]) {
      if k != n {
        MergeUntouched(g, es, all, n, if k < n then k else k + 1, new_);
      }
    }
    MergeApart(init, last, cur, after);
    MergeLinked(g, es, init, last, cur, after, new_);
  }

  /** Merging changes nothing but the entries of the current group. */
  lemma MergeUntouched(g: Cluster, es: seq<TxEntry>, all: seq<seq<nat>>, n: nat, k: nat, new_: seq<TxEntry>)
    requires AllGroupsOk(g, es, all) && Apart(all) && n + 1 < |all| && k < |all| && k != n + 1
    requires Tail(all[n + 1]) < |es| && Tail(all[n]) < |es| && es[Tail(all[n + 1])].firstTx < |es|
    requires new_ == MergedEntries(es, Tail(all[n + 1]), Tail(all[n]))
    ensures GroupOk(g, new_, all[k])
    ensures new_[Tail(all[k])].prevGroup == es[Tail(all[k])].prevGroup
  {
    var c, cur := all[k], all[n + 1];
    assert GroupOk(g, es, c) && GroupOk(g, es, cur);
    TailInGroup(g, es, cur);
    TailInGroup(g, es, c);
    assert cur[0] in Elems(cur);
    assert Elems(c) !! Elems(cur);
    forall x | x in c ensures new_[x + 1] == es[x + 1] {
      assert x in Elems(c);
    }
    GroupUntouched(g, es, new_, c);
  }

  lemma MergeApart(init: seq<seq<nat>>, last: seq<nat>, cur: seq<nat>, after: seq<seq<nat>>)
    requires Apart(init + [last, cur] + after)
    ensures Apart(init + [last + cur] + after)
  {
    var all, less, n := init + [last, cur] + after, init + [last + cur] + after, |init|;
    ElemsConcat(last, cur);
    assert all[n] == last && all[n + 1] == cur;
    forall j, k | 0 <= j < k < |less| ensures Elems(less[j]) !! Elems(less[k]) {
      var a, b := if j <= n then j else j + 1, if k < n then k else k + 1;
      assert j != n ==> less[j] == all[a];
      assert k != n ==> less[k] == all[b];
      if j == n {
        assert Elems(all[n]) !! Elems(all[b]) && Elems(all[n + 1]) !! Elems(all[b]);
      } else if k == n {
        assert Elems(all[a]) !! Elems(all[n]) && Elems(all[a]) !! Elems(all[n + 1]);
      } else {
        assert Elems(all[a]) !! Elems(all[b]);
      }
    }
  }

  lemma MergeLinked(g: Cluster, es: seq<TxEntry>, init: seq<seq<nat>>, last: seq<nat>, cur: seq<nat>, after: seq<seq<nat>>, new_: seq<TxEntry>)
    requires Represents(g, es, init + [last, cur] + after)
    requires Tail(cur) < |es| && Tail(last) < |es| && es[Tail(cur)].firstTx < |es|
    requires new_ == MergedEntries(es, Tail(cur), Tail(last))
    ensures GroupLinked(new_, init + [last + cur] + after)
    ensures new_[SENTINEL] == es[SENTINEL]
  {
    hide SeqRate, Deps;
    var all, less, n := init + [last, cur] + after, init + [last + cur] + after, |init|;
    assert all[n] == last && all[n + 1] == cur;
    assert GroupOk(g, es, last) && GroupOk(g, es, cur) && Elems(last) !! Elems(cur);
    TailInGroup(g, es, cur);
    TailInGroup(g, es, last);
    assert cur[0] in Elems(cur);
    assert Tail(last + cur) == Tail(cur);
    forall k | 0 <= k <= |less| ensures Node(less, k) < |new_| && new_[Node(less, k)].prevGroup == PrevNode(less, k) {
      if k == n {
        assert Node(all, n) == Tail(last) && PrevNode(less, n) == PrevNode(all, n);
      } else {
        var a := if k < n then k else k + 1;
        assert Node(less, k) == Node(all, a) && PrevNode(less, k) == PrevNode(all, a);
        if a < |all| {
          MergeUntouched(g, es, all, n, a, new_);
        }
      }
    }
  }

  // ----- swapping the previous group with the current one

  /** From [.., preprev, prev, cur, next, ..] to [.., preprev, cur, prev, next, ..]. */
  function SwappedEntries(es: seq<TxEntry>, next: nat, cur: nat, prev: nat): seq<TxEntry>
    requires next < |es| && cur < |es| && prev < |es|
  {
    var preprev := es[prev].prevGroup;
    var a := es[next := es[next].(prevGroup := prev)];
    var b := a[prev := a[prev].(prevGroup := cur)];
    b[cur := b[cur].(prevGroup := preprev)]
  }

  lemma SwappedAt(es: seq<TxEntry>, next: nat, cur: nat, prev: nat, i: nat)
    requires next < |es| && cur < |es| && prev < |es| && i < |es|
    requires next != cur && next != prev && cur != prev
    ensures SwappedEntries(es, next, cur, prev)[i] ==
            es[i].(prevGroup := if i == next then prev else if i == prev then cur
                                else if i == cur then es[prev].prevGroup else es[i].prevGroup)
  {
  }

  lemma SwapNodes(g: Cluster, es: seq<TxEntry>, all: seq<seq<nat>>, n: nat)
    requires Represents(g, es, all) && n + 1 < |all|
    ensures Node(all, n) < |es| && Node(all, n + 1) < |es| && Node(all, n + 2) < |es|
    ensures Node(all, n) != Node(all, n + 1) && Node(all, n) != Node(all, n + 2) && Node(all, n + 1) != Node(all, n + 2)
  {
    NodesDistinct(g, es, all, n, n + 1);
    NodesDistinct(g, es, all, n, n + 2);
    NodesDistinct(g, es, all, n + 1, n + 2);
  }

  lemma SwapRepresents(g: Cluster, es: seq<TxEntry>, init: seq<seq<nat>>, last: seq<nat>, cur: seq<nat>, after: seq<seq<nat>>)
    requires Represents(g, es, init + [last, cur] + after)
    ensures Node(after, 0) < |es| && Tail(cur) < |es| && Tail(last) < |es|
    ensures Represents(g, SwappedEntries(es, Node(after, 0), Tail(cur), Tail(last)), init + [cur, last] + after)
  {
    hide AllGroupsOk, Apart, GroupLinked;
    var all, new_, n := init + [last, cur] + after, init + [cur, last] + after, |init|;
    assert all[n] == last && all[n + 1] == cur && Node(all, n + 2) == Node(after, 0);
    SwapNodes(g, es, all, n);
    var next := Node(after, 0);
    var r := SwappedEntries(es, next, Tail(cur), Tail(last));
    assert forall k | 0 <= k < |new_| :: new_[k] == all[Exchanged(n, k)];
    forall i | 0 <= i < |es| ensures r[i] == es[i].(prevGroup := r[i].prevGroup) {
      SwappedAt(es, next, Tail(cur), Tail(last), i);
    }
    SwapGroups(g, es, all, new_, n, r);
    SwapApart(all, new_, n);
    SwapLinked(g, es, all, new_, n, r);
  }

  lemma SwapGroups(g: Cluster, es: seq<TxEntry>, all: seq<seq<nat>>, new_: seq<seq<nat>>, n: nat, r: seq<TxEntry>)
    requires AllGroupsOk(g, es, all) && n + 1 < |all| == |new_| && |r| == |es|
    requires forall k | 0 <= k < |new_| :: new_[k] == all[Exchanged(n, k)]
    requires forall i | 0 <= i < |es| :: r[i] == es[i].(prevGroup := r[i].prevGroup)
    ensures AllGroupsOk(g, r, new_)
  {
    forall k | 0 <= k < |new_| ensures GroupOk(g, r, new_[k]) {
      var a := Exchanged(n, k);
      assert GroupOk(g, es, all[a]);
      forall x | x in all[a] ensures x + 1 < |es| {
        var j :| 0 <= j < |all[a]| && all[a][j] == x;
      }
      GroupUntouched(g, es, r, all[a]);
    }
  }

  function Exchanged(n: nat, k: nat): nat {
    if k == n then n + 1 else if k == n + 1 then n else k
  }

  lemma SwapApart(all: seq<seq<nat>>, new_: seq<seq<nat>>, n: nat)
    requires Apart(all) && n + 1 < |all| == |new_|
    requires forall k | 0 <= k < |new_| :: new_[k] == all[Exchanged(n, k)]
    ensures Apart(new_)
  {
    forall j, k | 0 <= j < k < |new_| ensures Elems(new_[j]) !! Elems(new_[k]) {
      var a, b := Exchanged(n, j), Exchanged(n, k);
      assert new_[j] == all[a] && new_[k] == all[b];
      assert if a < b then Elems(all[a]) !! Elems(all[b]) else Elems(all[b]) !! Elems(all[a]);
    }
  }

  lemma SwapLinked(g: Cluster, es: seq<TxEntry>, all: seq<seq<nat>>, new_: seq<seq<nat>>, n: nat, r: seq<TxEntry>)
    requires Represents(g, es, all) && n + 1 < |all| == |new_|
    requires forall k | 0 <= k < |new_| :: new_[k] == all[Exchanged(n, k)]
    requires Node(all, n + 2) < |es| && Node(all, n + 1) < |es| && Node(all, n) < |es|
    requires r == SwappedEntries(es, Node(all, n + 2), Node(all, n + 1), Node(all, n))
    ensures GroupLinked(r, new_)
  {
    hide Represents, SwappedEntries;
    forall k | 0 <= k <= |new_| ensures Node(new_, k) < |r| && r[Node(new_, k)].prevGroup == PrevNode(new_, k) {
      var a := Exchanged(n, k);
      assert k < |new_| ==> new_[k] == all[a];
      SwapLinkAt(g, es, all, n, a, r);
      assert k > 0 ==> new_[k - 1] == all[Exchanged(n, k - 1)];
    }
  }

  /** The links after a swap, by position in the old list. */
  lemma SwapLinkAt(g: Cluster, es: seq<TxEntry>, all: seq<seq<nat>>, n: nat, a: nat, r: seq<TxEntry>)
    requires Represents(g, es, all) && n + 1 < |all| && a <= |all|
    requires Node(all, n + 2) < |es| && Node(all, n + 1) < |es| && Node(all, n) < |es|
    requires r == SwappedEntries(es, Node(all, n + 2), Node(all, n + 1), Node(all, n))
    ensures Node(all, a) < |r|
    ensures r[Node(all, a)].prevGroup ==
            if a == n + 2 then Node(all, n) else if a == n then Node(all, n + 1)
            else if a == n + 1 then PrevNode(all, n) else PrevNode(all, a)
  {
    SwapNodes(g, es, all, n);
    assert Node(all, a) < |es| && es[Node(all, a)].prevGroup == PrevNode(all, a);
    SwappedAt(es, Node(all, n + 2), Node(all, n + 1), Node(all, n), Node(all, a));
    if a < n || a > n + 2 {
      OtherNode(g, es, all, n, a);
    } else {
      assert Node(all, n) < |es| && es[Node(all, n)].prevGroup == PrevNode(all, n);
    }
  }

  lemma OtherNode(g: Cluster, es: seq<TxEntry>, all: seq<seq<nat>>, n: nat, a: nat)
    requires AllGroupsOk(g, es, all) && Apart(all) && n + 1 < |all| && a <= |all| && (a < n || a > n + 2)
    ensures Node(all, a) != Node(all, n) && Node(all, a) != Node(all, n + 1) && Node(all, a) != Node(all, n + 2)
  {
    if a < n {
      NodesDistinct(g, es, all, a, n);
      NodesDistinct(g, es, all, a, n + 1);
      NodesDistinct(g, es, all, a, n + 2);
    } else {
      NodesDistinct(g, es, all, n, a);
      NodesDistinct(g, es, all, n + 1, a);
      NodesDistinct(g, es, all, n + 2, a);
    }
  }

  // ----- the merge/swap cycle

  /** The indexes refer to three consecutive entries of the list. */
  ghost predicate AtGroup(g: Cluster, es: seq<TxEntry>, before: seq<seq<nat>>, c: seq<nat>, after: seq<seq<nat>>, cur: nat, prev: nat, next: nat) {
    && Represents(g, es, before + [c] + after)
    && cur == Tail(c) && prev == PrevNode(before, |before|) && next == Node(after, 0)
  }

  /** What the entries say about the current and the previous group. */
  lemma AtGroupFacts(g: Cluster, es: seq<TxEntry>, before: seq<seq<nat>>, c: seq<nat>, after: seq<seq<nat>>, cur: nat, prev: nat, next: nat)
    requires AtGroup(g, es, before, c, after, cur, prev, next)
    ensures cur < |es| && prev < |es| && next < |es| && cur > 0
    ensures es[cur].feerate == SeqRate(g, c) && es[cur].deps == Deps(g, c) && es[cur].prevGroup == prev
    ensures before != [] ==> es[prev].feerate == SeqRate(g, before[|before| - 1]) && es[prev].group == Elems(before[|before| - 1])
    ensures before == [] ==> prev == SENTINEL && !es[cur].feerate.Higher(es[prev].feerate)
  {
    var all, n := before + [c] + after, |before|;
    assert all[n] == c && GroupOk(g, es, c);
    TailInGroup(g, es, c);
    assert Node(all, n) == cur && PrevNode(all, n) == prev;
    assert Node(all, n + 1) == next;
    if before != [] {
      assert all[n - 1] == before[n - 1] && GroupOk(g, es, before[n - 1]);
      TailInGroup(g, es, before[n - 1]);
    }
  }

  lemma AtMerged(g: Cluster, es: seq<TxEntry>, init: seq<seq<nat>>, last: seq<nat>, c: seq<nat>, after: seq<seq<nat>>, cur: nat, prev: nat, next: nat)
    requires AtGroup(g, es, init + [last], c, after, cur, prev, next)
    ensures cur < |es| && prev < |es| && es[cur].firstTx < |es|
    ensures AtGroup(g, MergedEntries(es, cur, prev), init, last + c, after, cur, MergedEntries(es, cur, prev)[cur].prevGroup, next)
  {
    assert init + [last] + [c] + after == init + [last, c] + after;
    MergeRepresents(g, es, init, last, c, after);
    var new_, all := MergedEntries(es, cur, prev), init + [last + c] + after;
    assert c != [] by {
      assert (init + [last] + [c] + after)[|init| + 1] == c && GroupOk(g, es, c);
    }
    assert Tail(last + c) == Tail(c);
    assert Node(all, |init|) == cur && PrevNode(all, |init|) == PrevNode(init, |init|);
  }

  lemma AtSwapped(g: Cluster, es: seq<TxEntry>, init: seq<seq<nat>>, last: seq<nat>, c: seq<nat>, after: seq<seq<nat>>, cur: nat, prev: nat, next: nat)
    requires AtGroup(g, es, init + [last], c, after, cur, prev, next)
    ensures cur < |es| && prev < |es| && next < |es|
    ensures AtGroup(g, SwappedEntries(es, next, cur, prev), init, c, [last] + after, cur, es[prev].prevGroup, prev)
  {
    assert init + [last] + [c] + after == init + [last, c] + after;
    assert init + [c] + ([last] + after) == init + [c, last] + after;
    SwapRepresents(g, es, init, last, c, after);
    var all := init + [last, c] + after;
    assert Node(all, |init|) == prev && PrevNode(all, |init|) == PrevNode(init, |init|);
  }

  /** One merge or swap. */
  ghost predicate Moved(g: Cluster, before: seq<seq<nat>>, c: seq<nat>, after: seq<seq<nat>>,
                        before': seq<seq<nat>>, c': seq<nat>, after': seq<seq<nat>>) {
    && before != [] && before' == before[..|before| - 1]
    && var last := before[|before| - 1];
       && SeqRate(g, c).Higher(SeqRate(g, last))
       && if DependsOn(g, c, last) then c' == last + c && after' == after else c' == c && after' == [last] + after
  }

  lemma MovedSettles(g: Cluster, before: seq<seq<nat>>, c: seq<nat>, after: seq<seq<nat>>,
                     before': seq<seq<nat>>, c': seq<nat>, after': seq<seq<nat>>)
    requires Moved(g, before, c, after, before', c', after')
    ensures Settle(g, before', c', after') == Settle(g, before, c, after)
  {
  }

  /** Merge with or swap past the previous group. */
  method MoveForward(ghost g: Cluster, entries: seq<TxEntry>, cur: nat, prevGroup: nat, nextGroup: nat,
                     ghost before: seq<seq<nat>>, ghost c: seq<nat>, ghost after: seq<seq<nat>>)
    returns (es: seq<TxEntry>, prev: nat, next: nat, ghost before': seq<seq<nat>>, ghost c': seq<nat>, ghost after': seq<seq<nat>>)
    requires AtGroup(g, entries, before, c, after, cur, prevGroup, nextGroup)
    requires cur < |entries| && prevGroup < |entries| && entries[cur].feerate.Higher(entries[prevGroup].feerate)
    ensures |es| == |entries| && AtGroup(g, es, before', c', after', cur, prev, next)
    ensures Moved(g, before, c, after, before', c', after')
  {
    hide Represents, SeqRate, Deps, DependsOn;
    AtGroupFacts(g, entries, before, c, after, cur, prevGroup, nextGroup);
    ghost var init, last := before[..|before| - 1], before[|before| - 1];
    assert before == init + [last];
    before' := init;
    if DepsOverlapping(g, entries, cur, prevGroup, c, last) {
      AtMerged(g, entries, init, last, c, after, cur, prevGroup, nextGroup);
      es := MergedEntries(entries, cur, prevGroup);
      prev, next := es[cur].prevGroup, nextGroup;
      c', after' := last + c, after;
    } else {
      AtSwapped(g, entries, init, last, c, after, cur, prevGroup, nextGroup);
      es := SwappedEntries(entries, nextGroup, cur, prevGroup);
      prev, next := entries[prevGroup].prevGroup, prevGroup;
      c', after' := c, [last] + after;
    }
  }

  /** There is a dependency between the current and the previous group. */
  predicate DepsOverlapping(ghost g: Cluster, es: seq<TxEntry>, cur: nat, prev: nat, ghost c: seq<nat>, ghost last: seq<nat>): (r: bool)
    requires cur < |es| && prev < |es| && es[cur].deps == Deps(g, c) && es[prev].group == Elems(last)
    ensures r <==> DependsOn(g, c, last)
  {
    DepsOverlap(g, c, last);
    es[cur].deps * es[prev].group != {}
  }

  /** Move the last group, so far a single transaction, to its place. */
  method SettleLast(ghost g: Cluster, entries: seq<TxEntry>, cur: nat, ghost groups: seq<seq<nat>>, ghost idx: nat)
    returns (es: seq<TxEntry>)
    requires Represents(g, entries, groups + [[idx]]) && cur == idx + 1
    ensures |es| == |entries| && Represents(g, es, Settle(g, groups, [idx], []))
  {
    es := entries;
    var next: nat := SENTINEL;
    ghost var before, c: seq<nat>, after: seq<seq<nat>> := groups, [idx], [];
    assert groups + [[idx]] + [] == groups + [[idx]];
    AtGroupFacts(g, es, before, c, after, cur, PrevNode(before, |before|), next);
    var prev: nat := es[cur].prevGroup;
    while es[cur].feerate.Higher(es[prev].feerate)
      invariant AtGroup(g, es, before, c, after, cur, prev, next) && |es| == |entries|
      invariant cur < |es| && prev < |es|
      invariant Settle(g, before, c, after) == Settle(g, groups, [idx], [])
      decreases |before|
    {
      ghost var b, d, a := before, c, after;
      es, prev, next, before, c, after := MoveForward(g, es, cur, prev, next, before, c, after);
      MovedSettles(g, b, d, a, before, c, after);
      AtGroupFacts(g, es, before, c, after, cur, prev, next);
    }
    AtGroupFacts(g, es, before, c, after, cur, prev, next);
    SettleEnd(g, before, c, after);
  }

  lemma SettleEnd(g: Cluster, before: seq<seq<nat>>, c: seq<nat>, after: seq<seq<nat>>)
    requires before != [] ==> !SeqRate(g, c).Higher(SeqRate(g, before[|before| - 1]))
    ensures Settle(g, before, c, after) == before + [c] + after
  {
  }

  // ----- one pass

  /** The cluster a pass works on: even passes reverse dependencies and feerates. */
  function Oriented(g: Cluster, rev: bool): Cluster {
    if rev then ReversedGraph(g) else g
  }

  function InDirection(s: seq<nat>, rev: bool): seq<nat> {
    if rev then Reversed(s) else s
  }

  ghost predicate GoodEntries(es: seq<TxEntry>, lin: seq<nat>) {
    |es| > 0 && es[SENTINEL].feerate == EMPTY && InRange(es, lin)
  }

  lemma NotYetGrouped(g: Cluster, lin: seq<nat>, i: nat)
    requires NoDup(lin) && i < |lin|
    ensures forall k | 0 <= k < |Groups(g, lin[..i])| :: lin[i] !in Elems(Groups(g, lin[..i])[k])
  {
    var cs, x := Groups(g, lin[..i]), lin[i];
    GroupsPermute(g, lin[..i]);
    assert x !in multiset(lin[..i]);
    assert x !in multiset(Flatten(cs));
    forall k | 0 <= k < |cs| ensures x !in Elems(cs[k]) {
      ChunkInside(cs, k);
    }
  }

  lemma NextGroups(g: Cluster, lin: seq<nat>, i: nat)
    requires i < |lin|
    ensures Groups(g, lin[..i + 1]) == Settle(g, Groups(g, lin[..i]), [lin[i]], [])
  {
    var s := lin[..i + 1];
    assert s[..|s| - 1] == lin[..i] && s[|s| - 1] == lin[i];
  }

  /** Add one more transaction as a group of its own, and move that group to its place. */
  method AddToGroups(g: Cluster, rev: bool, entries: seq<TxEntry>, idx: nat, ghost lin: seq<nat>, ghost i: nat)
    returns (es: seq<TxEntry>)
    requires NoDup(lin) && i < |lin| && idx == lin[i] && idx + 1 < |entries|
    requires Represents(Oriented(g, rev), entries, Groups(Oriented(g, rev), lin[..i]))
    ensures |es| == |entries|
    ensures Represents(Oriented(g, rev), es, Groups(Oriented(g, rev), lin[..i + 1]))
  {
    ghost var h := Oriented(g, rev);
    ghost var cs := Groups(h, lin[..i]);
    var deps, feerate := OwnData(g, rev, idx);
    NotYetGrouped(h, lin, i);
    InsertRepresents(h, entries, cs, idx);
    NextGroups(h, lin, i);
    es := SettleLast(h, Inserted(entries, idx, deps, feerate), idx + 1, cs, idx);
  }

  method OwnData(g: Cluster, rev: bool, idx: nat) returns (deps: set<nat>, feerate: FeeFrac)
    ensures deps == Oriented(g, rev).Anc(idx) && feerate == Oriented(g, rev).Rate(idx)
  {
    ReversedGraphAt(g, idx);
    deps := if rev then g.Desc(idx) else g.Anc(idx);
    feerate := if rev then Negated(g.Rate(idx)) else g.Rate(idx);
  }

  lemma NoGroups(g: Cluster, es: seq<TxEntry>)
    requires |es| > 0 && es[SENTINEL].feerate == EMPTY && es[SENTINEL].prevGroup == SENTINEL
    ensures Represents(g, es, Groups(g, []))
  {
  }

  /** Build the groups of the linearization, in the direction of the pass. */
  method BuildGroups(g: Cluster, rev: bool, linearization: array<nat>, entries: seq<TxEntry>) returns (es: seq<TxEntry>)
    requires NoDup(linearization[..]) && GoodEntries(entries, linearization[..])
    ensures |es| == |entries|
    ensures Represents(Oriented(g, rev), es, Groups(Oriented(g, rev), InDirection(linearization[..], rev)))
  {
    ghost var h, lin := Oriented(g, rev), InDirection(linearization[..], rev);
    ReversedElems(linearization[..]);
    es := entries[SENTINEL := entries[SENTINEL].(prevGroup := SENTINEL)];
    assert lin[..0] == [];
    NoGroups(h, es);
    var i := 0;
    while i < linearization.Length
      invariant 0 <= i <= linearization.Length && |es| == |entries|
      invariant Represents(h, es, Groups(h, lin[..i]))
    {
      var idx := linearization[if rev then linearization.Length - 1 - i else i];
      es := AddToGroups(g, rev, es, idx, lin, i);
      i := i + 1;
    }
    assert lin[..|lin|] == lin;
  }

  // ----- writing the groups back

  /** Where a traversal from the back of the last group to the front of the first one writes its
      q-th transaction. */
  function Slot(n: nat, rev: bool, q: nat): nat
    requires q < n
  {
    if rev then q else n - 1 - q
  }

  /** The first `done` transactions of the traversal of `flat` have been written. */
  ghost predicate Written(lin: seq<nat>, flat: seq<nat>, rev: bool, done: nat) {
    && |lin| == |flat| && done <= |flat|
    && forall q | 0 <= q < done :: lin[Slot(|flat|, rev, q)] == flat[|flat| - 1 - q]
  }

  lemma AllWritten(lin: seq<nat>, flat: seq<nat>, rev: bool)
    requires Written(lin, flat, rev, |flat|)
    ensures lin == InDirection(flat, rev)
  {
    forall i | 0 <= i < |flat| ensures lin[i] == InDirection(flat, rev)[i] {
      var q := if rev then i else |flat| - 1 - i;
      assert lin[Slot(|flat|, rev, q)] == flat[|flat| - 1 - q];
    }
  }

  lemma WriteOne(lin: seq<nat>, flat: seq<nat>, rev: bool, done: nat, slot: nat)
    requires Written(lin, flat, rev, done) && done < |flat| && slot == Slot(|flat|, rev, done)
    ensures Written(lin[slot := flat[|flat| - 1 - done]], flat, rev, done + 1)
  {
  }

  /** Write the transactions of one group, from back to front. */
  method WriteGroup(ghost g: Cluster, entries: seq<TxEntry>, linearization: array<nat>, rev: bool, tail: nat, start: nat,
                    ghost pre: seq<nat>, ghost c: seq<nat>, ghost flat: seq<nat>)
    returns (done: nat)
    requires GroupOk(g, entries, c) && tail == Tail(c) && pre + c <= flat
    requires Written(linearization[..], flat, rev, start) && |pre| + |c| + start == |flat|
    modifies linearization
    ensures Written(linearization[..], flat, rev, done) && |pre| + done == |flat|
  {
    done := start;
    var curTx := tail;
    ghost var m := |c|;
    TailInGroup(g, entries, c);
    while curTx != SENTINEL
      invariant 0 <= m <= |c| && |pre| + m + done == |flat|
      invariant curTx == if m == 0 then SENTINEL else c[m - 1] + 1
      invariant Written(linearization[..], flat, rev, done)
      decreases m
    {
      var slot := if rev then done else linearization.Length - 1 - done;
      assert flat[|flat| - 1 - done] == (pre + c)[|pre| + m - 1] == c[m - 1];
      WriteOne(linearization[..], flat, rev, done, slot);
      linearization[slot] := curTx - 1;
      done := done + 1;
      assert c[m - 1] + 1 < |entries|;
      curTx := entries[curTx].prevTx;
      m := m - 1;
    }
  }

  /** Convert the groups back to a linearization, overwriting the existing one. */
  method WriteBack(ghost g: Cluster, entries: seq<TxEntry>, linearization: array<nat>, rev: bool, ghost cs: seq<seq<nat>>)
    requires Represents(g, entries, cs) && |Flatten(cs)| == linearization.Length
    modifies linearization
    ensures linearization[..] == InDirection(Flatten(cs), rev)
  {
    hide GroupOk, Apart, Written, InDirection;
    ghost var flat, k := Flatten(cs), |cs|;
    NothingWritten(linearization[..], flat, rev);
    assert cs[..k] == cs && Node(cs, k) == SENTINEL;
    var curGroup := entries[SENTINEL].prevGroup;
    var done := 0;
    while curGroup != SENTINEL
      invariant 0 <= k <= |cs| && curGroup == PrevNode(cs, k) && linearization.Length == |flat|
      invariant Written(linearization[..], flat, rev, done)
      invariant |Flatten(cs[..k])| + done == |flat|
      decreases k
    {
      ghost var c, pre := cs[k - 1], Flatten(cs[..k - 1]);
      FlattenPrefixGroup(cs, k - 1);
      assert GroupOk(g, entries, c) && Node(cs, k - 1) == curGroup;
      done := WriteGroup(g, entries, linearization, rev, curGroup, done, pre, c, flat);
      curGroup := entries[curGroup].prevGroup;
      k := k - 1;
    }
    LastGroupReached(g, entries, cs, k);
    assert cs[..0] == [];
    AllWritten(linearization[..], flat, rev);
  }

  lemma NothingWritten(lin: seq<nat>, flat: seq<nat>, rev: bool)
    requires |lin| == |flat|
    ensures Written(lin, flat, rev, 0)
  {
  }

  lemma FlattenPrefixGroup(cs: seq<seq<nat>>, k: nat)
    requires k < |cs|
    ensures Flatten(cs[..k + 1]) == Flatten(cs[..k]) + cs[k] && Flatten(cs[..k + 1]) <= Flatten(cs)
  {
    FlattenPrefix(cs, k + 1);
    FlattenTake(cs, k);
  }

  lemma LastGroupReached(g: Cluster, es: seq<TxEntry>, cs: seq<seq<nat>>, k: nat)
    requires AllGroupsOk(g, es, cs) && k <= |cs| && PrevNode(cs, k) == SENTINEL
    ensures k == 0
  {
    if k > 0 {
      TailInGroup(g, es, cs[k - 1]);
    }
  }

  // ----- PostLinearize

  /** The linearization that a pass makes of `lin`. */
  function Pass(g: Cluster, rev: bool, lin: seq<nat>): seq<nat> {
    InDirection(Flatten(Groups(Oriented(g, rev), InDirection(lin, rev))), rev)
  }

  lemma SameRate(g: Cluster, a: seq<nat>, b: seq<nat>)
    requires NoDup(a) && NoDup(b) && Elems(a) == Elems(b)
    ensures SeqRate(g, a) == SeqRate(g, b)
  {
    SeqRateIsSetRate(g, a);
    SeqRateIsSetRate(g, b);
  }

  /** A forward pass gives an order at least as good, whose chunks are its groups and are connected. */
  lemma ForwardPass(g: Cluster, lin: seq<nat>)
    requires g.Valid() && Linearizes(g, g.used, lin)
    ensures Linearizes(g, g.used, Pass(g, false, lin)) && Dominates(g, Pass(g, false, lin), lin)
    ensures Chunks(g, Pass(g, false, lin)) == Groups(g, lin) && AllConnected(g, Groups(g, lin))
  {
    var cs := Groups(g, lin);
    var flat := Flatten(cs);
    assert lin + [] == lin && flat + [] == flat;
    AllSized(g, lin);
    PassWorks(g, lin, []);
    AllSized(g, flat);
    ChunksAreChunking(g, flat);
    ChunkingUnique(g, Chunks(g, flat), cs, flat);
  }

  /** So does a backward pass, by reversal. */
  lemma BackwardPass(g: Cluster, lin: seq<nat>)
    requires g.Valid() && Linearizes(g, g.used, lin)
    ensures Linearizes(g, g.used, Pass(g, true, lin)) && Dominates(g, Pass(g, true, lin), lin)
  {
    var h, back := ReversedGraph(g), Reversed(lin);
    ReversedValid(g);
    ReversedElems(lin);
    ReversedTopological(g, lin);
    ForwardPass(h, back);
    var flat := Pass(h, false, back);
    ReversedElems(flat);
    ReversedTopological(h, flat);
    TwiceReversed(g);
    var out := Reversed(flat);
    SameRate(g, out, lin);
    ReversedDominates(g, out, lin);
  }

  // ----- trees

  lemma ReversedChild(g: Cluster, p: nat, c: nat)
    requires g.Valid()
    ensures IsChild(ReversedGraph(g), c, p) <==> IsChild(g, p, c)
  {
    var h := ReversedGraph(g);
    if p in g.used && c in g.used {
      ReversedAncestor(g, c, p);
      forall m | m in g.used ensures (m in h.Anc(p) <==> p in g.Anc(m)) && (c in h.Anc(m) <==> m in g.Anc(c)) {
        ReversedAncestor(g, m, p);
        ReversedAncestor(g, c, m);
      }
      ReversedAncestors(g, p);
    }
  }

  lemma ReversedShape(g: Cluster)
    requires g.Valid() && AtMostOneParent(g)
    ensures AtMostOneChild(ReversedGraph(g))
  {
    hide IsChild;
    var h := ReversedGraph(g);
    forall p, c, d | IsChild(h, p, c) && IsChild(h, p, d) ensures c == d {
      ReversedChild(g, c, p);
      ReversedChild(g, d, p);
    }
  }

  /** With at most one parent each, a backward pass gives an order at least as good as any valid one. */
  lemma BackwardTree(g: Cluster, lin: seq<nat>, other: seq<nat>)
    requires g.Valid() && AtMostOneParent(g) && Linearizes(g, g.used, lin) && Linearizes(g, g.used, other)
    ensures Dominates(g, Pass(g, true, lin), other)
  {
    hide Dominates, AtMostOneParent, AtMostOneChild;
    var h := ReversedGraph(g);
    ReversedValid(g);
    ReversedShape(g);
    ReversedElems(lin);
    ReversedElems(other);
    ReversedTopological(g, lin);
    ReversedTopological(g, other);
    TreePass(h, Reversed(lin), Reversed(other));
    BackwardPass(g, lin);
    var out := Pass(g, true, lin);
    ReversedElems(Flatten(Groups(h, Reversed(lin))));
    SameRate(g, out, other);
    ReversedDominates(g, out, other);
  }

  /** What both passes make of a linearization. */
  function PostLinearized(g: Cluster, lin: seq<nat>): seq<nat> {
    Pass(g, false, Pass(g, true, lin))
  }

  /** Every transaction has at most one child, or every one has at most one parent. */
  ghost predicate TreeShaped(g: Cluster) {
    AtMostOneChild(g) || AtMostOneParent(g)
  }

  /** Post-linearizing a tree gives an order at least as good as any valid one. */
  lemma TreeOptimal(g: Cluster, lin: seq<nat>, other: seq<nat>)
    requires g.Valid() && TreeShaped(g) && Linearizes(g, g.used, lin) && Linearizes(g, g.used, other)
    ensures Dominates(g, PostLinearized(g, lin), other)
  {
    hide Dominates, AtMostOneParent, AtMostOneChild, Pass;
    var second := Pass(g, true, lin);
    BackwardPass(g, lin);
    ForwardPass(g, second);
    if AtMostOneChild(g) {
      ForwardTree(g, second, other);
    } else {
      BackwardTree(g, lin, other);
      DominatesTrans(g, Pass(g, false, second), second, other);
    }
  }

  lemma ForwardTree(g: Cluster, lin: seq<nat>, other: seq<nat>)
    requires g.Valid() && AtMostOneChild(g) && Linearizes(g, g.used, lin) && Linearizes(g, g.used, other)
    ensures Dominates(g, Pass(g, false, lin), other)
  {
    TreePass(g, lin, other);
  }

  /** One pass over the linearization. */
  method RunPass(g: Cluster, rev: bool, linearization: array<nat>, entries: seq<TxEntry>) returns (es: seq<TxEntry>)
    requires NoDup(linearization[..]) && GoodEntries(entries, linearization[..])
    modifies linearization
    ensures linearization[..] == Pass(g, rev, old(linearization[..]))
    ensures |es| == |entries| && es[SENTINEL].feerate == EMPTY
  {
    ghost var h, lin := Oriented(g, rev), InDirection(linearization[..], rev);
    es := BuildGroups(g, rev, linearization, entries);
    GroupsPermute(h, lin);
    SameLength(Flatten(Groups(h, lin)), lin);
    WriteBack(h, es, linearization, rev, Groups(h, lin));
  }

  lemma SameLength(a: seq<nat>, b: seq<nat>)
    requires multiset(a) == multiset(b)
    ensures |a| == |b|
  {
    assert |multiset(a)| == |a| && |multiset(b)| == |b|;
  }

  /** Improve a linearization in place: a backward pass, then a forward one.  The result is at least as
      good, and as any other if the cluster is a tree; its chunks are connected. */
  method PostLinearize(g: Cluster, linearization: array<nat>)
    requires g.Valid() && Linearizes(g, g.used, linearization[..])
    modifies linearization
    ensures Linearizes(g, g.used, linearization[..])
    ensures linearization[..] == PostLinearized(g, old(linearization[..]))
    ensures Dominates(g, linearization[..], Pass(g, true, old(linearization[..])))
    ensures Dominates(g, linearization[..], old(linearization[..]))
    ensures AllConnected(g, Chunks(g, linearization[..]))
    ensures TreeShaped(g) ==> forall other | Linearizes(g, g.used, other) :: Dominates(g, linearization[..], other)
  {
    hide Dominates, TreeShaped, AllConnected, Pass;
    ghost var first := linearization[..];
    var entries := seq(|g.entries| + 1, _ => TxEntry(SENTINEL, SENTINEL, SENTINEL, {}, {}, EMPTY));
    EntriesForAll(g, entries, first);
    entries := RunPass(g, true, linearization, entries);
    BackwardPass(g, first);
    ghost var second := linearization[..];
    EntriesForAll(g, entries, second);
    entries := RunPass(g, false, linearization, entries);
    ForwardPass(g, second);
    DominatesTrans(g, linearization[..], second, first);
    if TreeShaped(g) {
      forall other | Linearizes(g, g.used, other) ensures Dominates(g, linearization[..], other) {
        TreeOptimal(g, first, other);
      }
    }
  }

  lemma EntriesForAll(g: Cluster, es: seq<TxEntry>, lin: seq<nat>)
    requires g.Consistent() && Elems(lin) <= g.used && |es| == |g.entries| + 1 && es[SENTINEL].feerate == EMPTY
    ensures GoodEntries(es, lin)
  {
    forall k | 0 <= k < |lin| ensures lin[k] + 1 < |es| {
      assert lin[k] in Elems(lin);
    }
  }
}
