/** The dependency graph and its updates (DepGraph in src/cluster_linearize.h). */
module DepGraphs {
  import opened FeeFracs
  import opened Positions
  import opened Clusters

  /** The relation of `new_` is that of `g` with `parents` made ancestors of `child`. */
  ghost predicate DependenciesAdded(g: Cluster, new_: Cluster, parents: set<nat>, child: nat) {
    && new_.used == g.used
    && |new_.entries| == |g.entries|
    && (forall i | i in g.used :: new_.Rate(i) == g.Rate(i))
    && (forall a, d | a in g.used && d in g.used :: a in new_.Anc(d) <==> BecomesAncestor(g, parents, child, a, d))
  }

  ghost predicate BecomesAncestor(g: Cluster, parents: set<nat>, child: nat, a: nat, d: nat) {
    a in g.Anc(d) || (child in g.Anc(d) && AncestorOfAny(g, a, parents))
  }

  ghost predicate AncestorOfAny(g: Cluster, a: nat, parents: set<nat>) {
    exists p | p in parents :: a in g.Anc(p)
  }

  /** A path along existing ancestry and the new parent-child edges. */
  ghost predicate DependencyPath(g: Cluster, parents: set<nat>, child: nat, p: seq<nat>) {
    && p != []
    && forall k | 0 < k < |p| :: p[k - 1] in g.Anc(p[k]) || (p[k - 1] in parents && p[k] == child)
  }

  ghost predicate Connects(g: Cluster, parents: set<nat>, child: nat, a: nat, d: nat) {
    exists p :: DependencyPath(g, parents, child, p) && p[0] == a && p[|p| - 1] == d
  }

  /** Adding dependencies gives exactly the reflexive transitive closure of the old relation and the
      new edges, also when those edges create a cycle. */
  lemma AddDependenciesIsClosure(g: Cluster, new_: Cluster, parents: set<nat>, child: nat, a: nat, d: nat)
    requires g.Consistent() && new_.Consistent() && DependenciesAdded(g, new_, parents, child)
    requires child in g.used && parents <= g.used && a in g.used && d in g.used
    ensures a in new_.Anc(d) <==> Connects(g, parents, child, a, d)
  {
    if BecomesAncestor(g, parents, child, a, d) {
      BecomesConnects(g, parents, child, a, d);
    }
    ConnectsInside(g, new_, parents, child, a, d);
  }

  lemma BecomesConnects(g: Cluster, parents: set<nat>, child: nat, a: nat, d: nat)
    requires BecomesAncestor(g, parents, child, a, d)
    ensures Connects(g, parents, child, a, d)
  {
    var path := [a, d];
    if a !in g.Anc(d) {
      var p :| p in parents && a in g.Anc(p);
      path := [a, p, child, d];
    }
    assert DependencyPath(g, parents, child, path);
  }

  lemma ConnectsInside(g: Cluster, new_: Cluster, parents: set<nat>, child: nat, a: nat, d: nat)
    requires g.Consistent() && new_.Consistent() && DependenciesAdded(g, new_, parents, child)
    requires child in g.used && parents <= g.used && a in g.used && d in g.used
    ensures Connects(g, parents, child, a, d) ==> a in new_.Anc(d)
  {
    if Connects(g, parents, child, a, d) {
      var p :| DependencyPath(g, parents, child, p) && p[0] == a && p[|p| - 1] == d;
      PathInside(g, new_, parents, child, p);
    }
  }

  lemma {:induction false} PathInside(g: Cluster, new_: Cluster, parents: set<nat>, child: nat, p: seq<nat>)
    requires g.Consistent() && new_.Consistent() && DependenciesAdded(g, new_, parents, child)
    requires child in g.used && parents <= g.used
    requires DependencyPath(g, parents, child, p) && p[|p| - 1] in g.used
    ensures p[0] in new_.Anc(p[|p| - 1])
  {
    if |p| > 1 {
      var q, d := p[1..], p[|p| - 1];
      assert q[|q| - 1] == d;
      PathInside(g, new_, parents, child, q);
      assert BecomesAncestor(g, parents, child, p[0], p[1]);
      assert p[0] in g.used;
      assert new_.Anc(p[1]) <= new_.Anc(d);
    }
  }

  /** The strict ancestors of `i` that are not ancestors of another strict ancestor of `i`. */
  ghost function MaximalStrictAncestors(g: Cluster, i: nat): set<nat> {
    set p | p in g.Anc(i) && p != i && forall q | q in g.Anc(i) && q != i && p in g.Anc(q) :: q == p
  }

  // ----- remapping

  function Image(mapping: seq<nat>, s: set<nat>): set<nat>
    requires forall i | i in s :: i < |mapping|
  {
    set i | i in s :: mapping[i]
  }

  ghost predicate Injective(mapping: seq<nat>, s: set<nat>) {
    && (forall i | i in s :: i < |mapping|)
    && forall i, j | i in s && j in s && mapping[i] == mapping[j] :: i == j
  }

  /** The ancestry of `new_` is exactly the image of that of `g`. */
  ghost predicate Isomorphic(g: Cluster, mapping: seq<nat>, new_: Cluster) {
    && Injective(mapping, g.used) && new_.used == Image(mapping, g.used)
    && (forall i | i in g.used :: new_.Rate(mapping[i]) == g.Rate(i))
    && forall i, j | i in g.used && j in g.used :: mapping[j] in new_.Anc(mapping[i]) <==> j in g.Anc(i)
  }

  /** The transactions of `g` at their new positions, without dependencies. */
  method Unconnected(g: Cluster, mapping: seq<nat>, posRange: nat) returns (r: Cluster)
    requires g.Consistent() && Injective(mapping, g.used)
    requires forall i | i in g.used :: mapping[i] < posRange
    ensures |r.entries| == posRange && r.used == Image(mapping, g.used)
    ensures forall i | i in g.used ::
              r.entries[mapping[i]] == Entry(g.Rate(i), {mapping[i]}, {mapping[i]})
  {
    var entries := seq(posRange, _ => Entry(EMPTY, {}, {}));
    var used: set<nat> := {};
    var rest := g.used;
    while rest != {}
      invariant rest <= g.used && |entries| == posRange
      invariant used == Image(mapping, g.used - rest)
      invariant forall i | i in g.used - rest ::
                  entries[mapping[i]] == Entry(g.Rate(i), {mapping[i]}, {mapping[i]})
    {
      var i := First(rest);
      rest := rest - {i};
      var idx := mapping[i];
      entries := entries[idx := Entry(g.Rate(i), {idx}, {idx})];
      used := used + {idx};
    }
    r := Cluster(entries, used);
  }

  /** Only dependencies of `g` are present, and those of the transactions in `done` all are. */
  ghost predicate PartlyMapped(g: Cluster, mapping: seq<nat>, new_: Cluster, done: set<nat>)
    requires Injective(mapping, g.used) && done <= g.used
  {
    && (forall i | i in g.used :: new_.Rate(mapping[i]) == g.Rate(i))
    && (forall i, j | i in g.used && j in g.used && mapping[j] in new_.Anc(mapping[i]) :: j in g.Anc(i))
    && (g.Acyclic() ==> forall i, j | i in done && j in MaximalStrictAncestors(g, i) && j in g.used ::
          mapping[j] in new_.Anc(mapping[i]))
  }

  lemma UnconnectedIsMapped(g: Cluster, mapping: seq<nat>, r: Cluster)
    requires g.Consistent() && Injective(mapping, g.used) && r.used == Image(mapping, g.used)
    requires forall i | i in g.used :: mapping[i] < |r.entries|
    requires forall i | i in g.used ::
               r.entries[mapping[i]] == Entry(g.Rate(i), {mapping[i]}, {mapping[i]})
    ensures r.Consistent() && PartlyMapped(g, mapping, r, {})
  {
    forall x | x in r.used ensures x < |r.entries| && r.Anc(x) == {x} && r.Desc(x) == {x} {
      var i :| i in g.used && mapping[i] == x;
    }
  }

  lemma MappedStep(g: Cluster, mapping: seq<nat>, before: Cluster, after: Cluster, done: set<nat>, i: nat, reduced: set<nat>)
    requires g.Consistent() && Injective(mapping, g.used) && done <= g.used && i in done
    requires before.Consistent() && before.used == Image(mapping, g.used)
    requires PartlyMapped(g, mapping, before, done - {i})
    requires reduced <= g.Anc(i) && (g.Acyclic() ==> reduced == MaximalStrictAncestors(g, i))
    requires DependenciesAdded(before, after, Image(mapping, reduced), mapping[i])
    ensures PartlyMapped(g, mapping, after, done)
  {
    var parents := Image(mapping, reduced);
    forall x, y | x in g.used && y in g.used && mapping[y] in after.Anc(mapping[x]) ensures y in g.Anc(x) {
      assert BecomesAncestor(before, parents, mapping[i], mapping[y], mapping[x]);
      if mapping[y] !in before.Anc(mapping[x]) {
        var q :| q in parents && mapping[y] in before.Anc(q);
        var p :| p in reduced && mapping[p] == q;
        assert y in g.Anc(p) && i in g.Anc(x);
      }
    }
    if g.Acyclic() {
      forall x, y | x in done && y in MaximalStrictAncestors(g, x) && y in g.used
        ensures mapping[y] in after.Anc(mapping[x])
      {
        if x == i {
          assert mapping[y] in parents && mapping[y] in before.Anc(mapping[y]);
          assert AncestorOfAny(before, mapping[y], parents);
        }
        assert BecomesAncestor(before, parents, mapping[i], mapping[y], mapping[x]);
      }
    }
  }

  lemma {:induction false} SomeMaximal(g: Cluster, i: nat, j: nat) returns (p: nat)
    requires g.Consistent() && g.Acyclic() && i in g.used && j in g.Anc(i) && j != i
    ensures p in MaximalStrictAncestors(g, i) && j in g.Anc(p)
    decreases |g.Anc(i)| - |g.Anc(j)|
  {
    if j in MaximalStrictAncestors(g, i) {
      p := j;
    } else {
      var q :| q in g.Anc(i) && q != i && j in g.Anc(q) && q != j;
      FewerAncestors(g, j, q);
      FewerAncestors(g, q, i);
      p := SomeMaximal(g, i, q);
    }
  }

  /** Mapping the reduced parents of every transaction maps all its ancestors. */
  lemma {:induction false} AllMapped(g: Cluster, mapping: seq<nat>, new_: Cluster, i: nat, j: nat)
    requires g.Consistent() && g.Acyclic() && Injective(mapping, g.used)
    requires new_.Consistent() && new_.used == Image(mapping, g.used)
    requires PartlyMapped(g, mapping, new_, g.used)
    requires i in g.used && j in g.Anc(i)
    ensures mapping[j] in new_.Anc(mapping[i])
    decreases |g.Anc(i)|
  {
    if j != i {
      var p := SomeMaximal(g, i, j);
      FewerAncestors(g, p, i);
      AllMapped(g, mapping, new_, p, j);
      assert mapping[p] in new_.Anc(mapping[i]);
      assert new_.Anc(mapping[p]) <= new_.Anc(mapping[i]);
    }
  }

  class DepGraph {
    /** How many positions the set type has room for. */
    const capacity: nat
    var entries: seq<Entry>
    var used: set<nat>

    function View(): Cluster
      reads this
    {
      Cluster(entries, used)
    }

    ghost predicate Valid()
      reads this
    {
      && View().Consistent()
      && forall i | i in used :: i < capacity
    }

    constructor (capacity: nat)
      ensures Valid() && View() == Cluster([], {}) && this.capacity == capacity
    {
      this.capacity := capacity;
      entries := [];
      used := {};
    }

    /** The graph of `g` with every position i moved to mapping[i]. */
    constructor Remap(capacity: nat, g: Cluster, mapping: seq<nat>, posRange: nat)
      requires g.Consistent() && |mapping| == |g.entries|
      requires forall i | i in g.used :: mapping[i] < posRange <= capacity
      requires Injective(mapping, g.used)
      ensures Valid() && |entries| == posRange
      ensures used == Image(mapping, g.used)
      ensures forall i | i in g.used :: View().Rate(mapping[i]) == g.Rate(i)
      ensures forall i, j | i in g.used && j in g.used && mapping[j] in View().Anc(mapping[i]) :: j in g.Anc(i)
      ensures g.Acyclic() ==> Isomorphic(g, mapping, View())
    {
      this.capacity := capacity;
      var blank := Unconnected(g, mapping, posRange);
      entries, used := blank.entries, blank.used;
      new;
      UnconnectedIsMapped(g, mapping, blank);
      assert g.used - g.used == {};
      var rest := g.used;
      while rest != {}
        invariant rest <= g.used && used == Image(mapping, g.used) && |entries| == posRange
        invariant View().Consistent()
        invariant PartlyMapped(g, mapping, View(), g.used - rest)
      {
        var i := First(rest);
        rest := rest - {i};
        var reduced := GetReducedParents(g, i);
        var parents := Image(mapping, reduced);
        ghost var before := View();
        entries := WithDependencies(View(), parents, mapping[i]);
        MappedStep(g, mapping, before, View(), g.used - rest, i, reduced);
      }
      if g.Acyclic() {
        forall i, j | i in g.used && j in g.used
          ensures mapping[j] in View().Anc(mapping[i]) <==> j in g.Anc(i)
        {
          if j in g.Anc(i) {
            AllMapped(g, mapping, View(), i, j);
          }
        }
      }
    }

    method AddTransaction(feerate: FeeFrac) returns (idx: nat)
      requires Valid()
      requires Fill(capacity) - used != {}
      modifies this
      ensures Valid()
      ensures IsFirst(Fill(capacity) - old(used), idx)
      ensures used == old(used) + {idx}
      ensures View().Rate(idx) == feerate && View().Anc(idx) == {idx} && View().Desc(idx) == {idx}
      ensures forall i | i in old(used) ::
                && View().Rate(i) == old(View()).Rate(i)
                && View().Anc(i) == old(View()).Anc(i)
                && View().Desc(i) == old(View()).Desc(i)
    {
      hide Cluster.Consistent;
      InEntries(View());
      var available := Fill(capacity) - used;
      idx := First(available);
      assert idx <= |entries| || |entries| !in available;
      ghost var g := View();
      if idx == |entries| {
        entries := entries + [Entry(feerate, {idx}, {idx})];
      } else {
        entries := entries[idx := Entry(feerate, {idx}, {idx})];
      }
      used := used + {idx};
      AddedIsConsistent(g, View(), idx);
    }

    method RemoveTransactions(del: set<nat>)
      requires Valid()
      modifies this
      ensures Valid()
      ensures used == old(used) - del
      ensures entries == [] || |entries| - 1 in used
      ensures forall i | i in used ::
                && View().Rate(i) == old(View()).Rate(i)
                && View().Anc(i) == old(View()).Anc(i) - del
                && View().Desc(i) == old(View()).Desc(i) - del
    {
      used := used - del;
      while entries != [] && |entries| - 1 !in used
        invariant used == old(used) - del
        invariant entries <= old(entries)
        invariant forall i | i in used :: i < |entries|
        decreases |entries|
      {
        entries := entries[..|entries| - 1];
      }
      ghost var cut := entries;
      var k := 0;
      while k < |entries|
        invariant 0 <= k <= |entries| == |cut|
        invariant used == old(used) - del
        invariant forall i | 0 <= i < k ::
                    entries[i] == cut[i].(ancestors := cut[i].ancestors * used, descendants := cut[i].descendants * used)
        invariant forall i | k <= i < |cut| :: entries[i] == cut[i]
      {
        var e := entries[k];
        entries := entries[k := e.(ancestors := e.ancestors * used, descendants := e.descendants * used)];
        k := k + 1;
      }
    }

    method AddDependencies(parents: set<nat>, child: nat)
      requires Valid()
      requires child in used && parents <= used
      modifies this
      ensures Valid()
      ensures DependenciesAdded(old(View()), View(), parents, child)
    {
      entries := WithDependencies(View(), parents, child);
    }
  }

  method WithDependencies(g: Cluster, parents: set<nat>, child: nat) returns (entries: seq<Entry>)
    requires g.Consistent() && child in g.used && parents <= g.used
    ensures Cluster(entries, g.used).Consistent()
    ensures DependenciesAdded(g, Cluster(entries, g.used), parents, child)
  {
    // Only what the child does not descend from yet is new.
    var parAnc := AncestorsOfAll(g, parents - g.Anc(child));
    parAnc := parAnc - g.Anc(child);
    NewAncestors(g, parents, child, parAnc);
    if parAnc == {} {
      NothingNew(g, parents, child);
      entries := g.entries;
      assert Cluster(entries, g.used) == g;
    } else {
      var widened := AddDescendants(g.entries, parAnc, child);
      entries := AddAncestors(widened, widened[child].descendants, parAnc);
      EntriesUpdated(g, widened, entries, parents, child, parAnc);
    }
  }

  ghost predicate DescendantsAdded(entries: seq<Entry>, r: seq<Entry>, ancs: set<nat>, descs: set<nat>) {
    && |r| == |entries|
    && forall i | 0 <= i < |r| ::
         r[i] == if i in ancs then entries[i].(descendants := entries[i].descendants + descs) else entries[i]
  }

  ghost predicate AncestorsAdded(entries: seq<Entry>, r: seq<Entry>, descs: set<nat>, ancs: set<nat>) {
    && |r| == |entries|
    && forall i | 0 <= i < |r| ::
         r[i] == if i in descs then entries[i].(ancestors := entries[i].ancestors + ancs) else entries[i]
  }

  lemma EntriesUpdated(g: Cluster, widened: seq<Entry>, entries: seq<Entry>, parents: set<nat>, child: nat, parAnc: set<nat>)
    requires g.Consistent() && child in g.used && parents <= g.used && child !in parAnc
    requires IsNewAncestors(g, parents, child, parAnc) && parAnc <= g.used
    requires DescendantsAdded(g.entries, widened, parAnc, g.Desc(child))
    requires AncestorsAdded(widened, entries, widened[child].descendants, parAnc)
    ensures Cluster(entries, g.used).Consistent()
    ensures DependenciesAdded(g, Cluster(entries, g.used), parents, child)
  {
    hide Cluster.Consistent, DependenciesAdded, IsNewAncestors;
    var new_ := Cluster(entries, g.used);
    InEntries(g);
    assert widened[child].descendants == g.Desc(child);
    forall i | i in g.used
      ensures new_.Rate(i) == g.Rate(i)
      ensures new_.Anc(i) == g.Anc(i) + (if i in g.Desc(child) then parAnc else {})
      ensures new_.Desc(i) == g.Desc(i) + (if i in parAnc then g.Desc(child) else {})
    {
      var e, w, n := g.entries[i], widened[i], entries[i];
      assert w == if i in parAnc then e.(descendants := e.descendants + g.Desc(child)) else e;
      assert n == if i in g.Desc(child) then w.(ancestors := w.ancestors + parAnc) else w;
    }
    UpdatedIsConsistent(g, new_, parents, child, parAnc);
  }

  lemma InEntries(g: Cluster)
    requires g.Consistent()
    ensures forall i | i in g.used :: i < |g.entries|
  {
  }

  lemma AddedIsConsistent(g: Cluster, new_: Cluster, idx: nat)
    requires g.Consistent() && idx !in g.used && idx < |new_.entries|
    requires |g.entries| <= |new_.entries| && new_.used == g.used + {idx}
    requires new_.Anc(idx) == {idx} && new_.Desc(idx) == {idx}
    requires forall i | i in g.used :: new_.Anc(i) == g.Anc(i) && new_.Desc(i) == g.Desc(i)
    ensures new_.Consistent()
  {
    forall i, j | i in new_.used && j in new_.used ensures j in new_.Anc(i) <==> i in new_.Desc(j) {
      if i == idx && j != idx {
        assert j in g.used && idx !in g.Desc(j);
      }
    }
  }

  method AncestorsOfAll(g: Cluster, which: set<nat>) returns (r: set<nat>)
    ensures forall a :: a in r <==> AncestorOfAny(g, a, which)
  {
    r := {};
    var rest := which;
    while rest != {}
      invariant rest <= which
      invariant forall a :: a in r <==> AncestorOfAny(g, a, which - rest)
    {
      var par := First(rest);
      ghost var before := which - rest;
      rest := rest - {par};
      r := r + g.Anc(par);
      assert which - rest == before + {par};
    }
  }

  /** To each of `ancs`, add as descendants the descendants of the child. */
  method AddDescendants(entries: seq<Entry>, ancs: set<nat>, child: nat) returns (r: seq<Entry>)
    requires child < |entries| && child !in ancs && forall a | a in ancs :: a < |entries|
    ensures DescendantsAdded(entries, r, ancs, entries[child].descendants)
  {
    r := entries;
    var rest := ancs;
    while rest != {}
      invariant rest <= ancs
      invariant DescendantsAdded(entries, r, ancs - rest, entries[child].descendants)
    {
      var a := First(rest);
      rest := rest - {a};
      r := r[a := r[a].(descendants := r[a].descendants + r[child].descendants)];
    }
  }

  /** To each of `descs`, add the given ancestors. */
  method AddAncestors(entries: seq<Entry>, descs: set<nat>, ancs: set<nat>) returns (r: seq<Entry>)
    requires forall d | d in descs :: d < |entries|
    ensures AncestorsAdded(entries, r, descs, ancs)
  {
    r := entries;
    var rest := descs;
    while rest != {}
      invariant rest <= descs
      invariant AncestorsAdded(entries, r, descs - rest, ancs)
    {
      var d := First(rest);
      rest := rest - {d};
      r := r[d := r[d].(ancestors := r[d].ancestors + ancs)];
    }
  }

  /** The ancestors of the new parents that are not yet ancestors of the child. */
  ghost predicate IsNewAncestors(g: Cluster, parents: set<nat>, child: nat, parAnc: set<nat>) {
    forall a :: a in parAnc <==> a !in g.Anc(child) && AncestorOfAny(g, a, parents)
  }

  lemma NewAncestors(g: Cluster, parents: set<nat>, child: nat, parAnc: set<nat>)
    requires g.Consistent() && child in g.used && parents <= g.used
    requires forall a :: a in parAnc <==> a !in g.Anc(child) && AncestorOfAny(g, a, parents - g.Anc(child))
    ensures IsNewAncestors(g, parents, child, parAnc)
    ensures parAnc <= g.used && child !in parAnc
  {
  }

  lemma NothingNew(g: Cluster, parents: set<nat>, child: nat)
    requires g.Consistent() && child in g.used && parents <= g.used
    requires IsNewAncestors(g, parents, child, {})
    ensures DependenciesAdded(g, g, parents, child)
  {
    forall a, d | a in g.used && d in g.used && child in g.Anc(d) && AncestorOfAny(g, a, parents)
      ensures a in g.Anc(d)
    {
      assert a in g.Anc(child);
    }
  }

  lemma UpdatedIsConsistent(g: Cluster, new_: Cluster, parents: set<nat>, child: nat, parAnc: set<nat>)
    requires g.Consistent() && child in g.used && parents <= g.used
    requires IsNewAncestors(g, parents, child, parAnc) && parAnc <= g.used
    requires new_.used == g.used && |new_.entries| == |g.entries|
    requires forall i | i in g.used ::
               && new_.Rate(i) == g.Rate(i)
               && new_.Anc(i) == g.Anc(i) + (if i in g.Desc(child) then parAnc else {})
               && new_.Desc(i) == g.Desc(i) + (if i in parAnc then g.Desc(child) else {})
    ensures new_.Consistent() && DependenciesAdded(g, new_, parents, child)
  {
    forall a, d | a in g.used && d in g.used
      ensures a in new_.Anc(d) <==> BecomesAncestor(g, parents, child, a, d)
      ensures d in new_.Desc(a) <==> BecomesAncestor(g, parents, child, a, d)
    {
      BecomesUpdated(g, parents, child, parAnc, a, d);
    }
    forall i, j | i in g.used && j in new_.Anc(i) ensures new_.Anc(j) <= new_.Anc(i) {
      forall k | k in new_.Anc(j) ensures k in new_.Anc(i) {
        BecomesTransitive(g, parents, child, k, j, i);
      }
    }
  }

  lemma BecomesUpdated(g: Cluster, parents: set<nat>, child: nat, parAnc: set<nat>, a: nat, d: nat)
    requires g.Consistent() && child in g.used && a in g.used && d in g.used
    requires IsNewAncestors(g, parents, child, parAnc)
    ensures BecomesAncestor(g, parents, child, a, d) <==> a in g.Anc(d) || (d in g.Desc(child) && a in parAnc)
    ensures BecomesAncestor(g, parents, child, a, d) <==> d in g.Desc(a) || (a in parAnc && d in g.Desc(child))
  {
    if d in g.Desc(child) && a in g.Anc(child) {
      assert a in g.Anc(d);
    }
  }

  lemma BecomesTransitive(g: Cluster, parents: set<nat>, child: nat, k: nat, j: nat, i: nat)
    requires g.Consistent() && child in g.used && parents <= g.used && i in g.used
    requires BecomesAncestor(g, parents, child, k, j) && BecomesAncestor(g, parents, child, j, i)
    ensures BecomesAncestor(g, parents, child, k, i)
  {
    if j in g.Anc(i) {
      if k !in g.Anc(j) {
        assert child in g.Anc(i);
      }
    } else if k in g.Anc(j) {
      var p :| p in parents && j in g.Anc(p);
      assert k in g.Anc(p);
    }
  }

  // ----- queries

  /** The minimal set of parents that gives `i` its ancestors, inferred from the ancestor sets. */
  method GetReducedParents(g: Cluster, i: nat) returns (parents: set<nat>)
    requires g.Consistent() && i in g.used
    ensures parents <= g.Anc(i) - {i}
    ensures Covers(g, g.Anc(i) - {i}, parents)
    ensures g.Acyclic() ==> parents == MaximalStrictAncestors(g, i)
  {
    parents := g.Anc(i) - {i};
    ghost var all := parents;
    var rest := parents;
    assert forall a | a in all :: a in g.Anc(a);
    while rest != {}
      invariant parents <= all && rest <= all
      invariant Covers(g, all, parents)
      invariant forall p, q | q in parents - rest && p in parents && p in g.Anc(q) :: p == q
      invariant g.Acyclic() ==> MaximalStrictAncestors(g, i) <= parents
    {
      var parent := First(rest);
      rest := rest - {parent};
      if parent in parents {
        CoversWithout(g, all, parents, parent);
        parents := parents - g.Anc(parent) + {parent};
      }
    }
    if g.Acyclic() {
      OnlyMaximalLeft(g, i, parents);
    }
  }

  ghost predicate Covers(g: Cluster, all: set<nat>, parents: set<nat>) {
    forall a {:trigger AncestorOfAny(g, a, parents)} | a in all :: AncestorOfAny(g, a, parents)
  }

  lemma CoversWithout(g: Cluster, all: set<nat>, parents: set<nat>, parent: nat)
    requires parents <= all && parent in parents && Covers(g, all, parents)
    requires forall p | p in g.Anc(parent) :: g.Anc(p) <= g.Anc(parent)
    ensures Covers(g, all, parents - g.Anc(parent) + {parent})
  {
    var less := parents - g.Anc(parent) + {parent};
    forall a | a in all ensures AncestorOfAny(g, a, less) {
      assert AncestorOfAny(g, a, parents);
      var p :| p in parents && a in g.Anc(p);
      if p in g.Anc(parent) {
        assert a in g.Anc(parent);
      }
    }
  }

  lemma OnlyMaximalLeft(g: Cluster, i: nat, parents: set<nat>)
    requires g.Consistent() && g.Acyclic() && i in g.used && parents <= g.Anc(i) - {i}
    requires Covers(g, g.Anc(i) - {i}, parents)
    requires forall p, q | q in parents && p in parents && p in g.Anc(q) :: p == q
    ensures parents <= MaximalStrictAncestors(g, i)
  {
    forall p, q | p in parents && q in g.Anc(i) && q != i && p in g.Anc(q) ensures q == p {
      assert AncestorOfAny(g, q, parents);
      var r :| r in parents && q in g.Anc(r);
      assert p in g.Anc(r);
    }
  }

  method FeeRate(g: Cluster, elems: set<nat>) returns (sum: FeeFrac)
    ensures sum == SetRate(g, elems)
  {
    sum := EMPTY;
    var rest := elems;
    PlusLaws(SetRate(g, elems), EMPTY, EMPTY);
    while rest != {}
      invariant rest <= elems
      invariant sum.Plus(SetRate(g, rest)) == SetRate(g, elems)
    {
      var pos := First(rest);
      SumStep(g, sum, rest, pos);
      rest := rest - {pos};
      sum := sum.Plus(g.Rate(pos));
    }
    PlusLaws(sum, EMPTY, EMPTY);
  }

  lemma SumStep(g: Cluster, sum: FeeFrac, rest: set<nat>, pos: nat)
    requires pos in rest
    ensures sum.Plus(g.Rate(pos)).Plus(SetRate(g, rest - {pos})) == sum.Plus(SetRate(g, rest))
  {
    SetRateRemove(g, rest, pos);
    PlusLaws(sum, g.Rate(pos), SetRate(g, rest - {pos}));
  }

  /** One is an ancestor of the other. */
  ghost predicate Related(g: Cluster, a: nat, b: nat) {
    a in g.Anc(b) || b in g.Anc(a)
  }

  /** Nothing in `part` is related to anything in the rest of `todo`. */
  ghost predicate Separated(g: Cluster, todo: set<nat>, part: set<nat>) {
    forall a, b {:trigger Related(g, a, b)} | a in part && b in todo && Related(g, a, b) :: b in part
  }

  /** However it is divided in two, some transaction is related to one on the other side. */
  ghost predicate Connected(g: Cluster, s: set<nat>) {
    forall part | part <= s && part != {} && Separated(g, s, part) :: part == s
  }

  method GetConnectedComponent(g: Cluster, todo: set<nat>, tx: nat) returns (ret: set<nat>)
    requires g.Consistent() && todo <= g.used && tx in todo
    ensures tx in ret && ret <= todo && Separated(g, todo, ret) && Connected(g, ret)
  {
    ret := {};
    var toAdd := {tx};
    while toAdd != {}
      invariant Growing(g, todo, tx, ret, toAdd)
      decreases |todo - ret|, |toAdd|
    {
      var near := Neighbours(g, toAdd);
      var grown := (ret + near) * todo;
      GrowingStep(g, todo, tx, ret, toAdd, near, grown);
      ret, toAdd := grown, grown - ret;
    }
    ComponentConnected(g, todo, tx, ret);
  }

  /** A part of the component of `tx`, of which only `toAdd` may have relatives left out. */
  ghost predicate Growing(g: Cluster, todo: set<nat>, tx: nat, ret: set<nat>, toAdd: set<nat>) {
    && ret <= todo && toAdd <= todo
    && (if ret == {} then toAdd == {tx} else tx in ret && toAdd <= ret)
    && (forall a, b {:trigger Related(g, a, b)} | a in ret - toAdd && b in todo && Related(g, a, b) :: b in ret)
    && InEveryPart(g, todo, tx, ret)
  }

  lemma GrowingStep(g: Cluster, todo: set<nat>, tx: nat, ret: set<nat>, toAdd: set<nat>, near: set<nat>, grown: set<nat>)
    requires todo <= g.used && (forall i | i in g.used :: i in g.Anc(i))
    requires Growing(g, todo, tx, ret, toAdd) && toAdd != {}
    requires forall b | b in g.used :: b in near <==> NearAny(g, toAdd, b)
    requires grown == (ret + near) * todo
    ensures Growing(g, todo, tx, grown, grown - ret)
    ensures |todo - grown| < |todo - ret| || (grown == ret && grown - ret == {})
  {
    StillInEveryPart(g, todo, tx, ret, toAdd, near, grown);
    if grown != ret {
      SmallerSubset(todo - grown, todo - ret);
    }
    if ret == {} {
      assert Related(g, tx, tx);
    }
  }

  ghost predicate NearAny(g: Cluster, which: set<nat>, b: nat) {
    exists a :: a in which && Related(g, a, b)
  }

  ghost predicate InEveryPart(g: Cluster, todo: set<nat>, tx: nat, s: set<nat>) {
    forall part | tx in part && Separated(g, todo, part) :: s <= part
  }

  lemma StillInEveryPart(g: Cluster, todo: set<nat>, tx: nat, old_: set<nat>, toAdd: set<nat>, near: set<nat>, ret: set<nat>)
    requires todo <= g.used && toAdd <= old_ + {tx} && InEveryPart(g, todo, tx, old_)
    requires forall b | b in g.used :: b in near <==> NearAny(g, toAdd, b)
    requires ret == (old_ + near) * todo
    ensures InEveryPart(g, todo, tx, ret)
  {
    forall part | tx in part && Separated(g, todo, part) ensures ret <= part {
      forall b | b in ret && b in near ensures b in part {
        var a :| a in toAdd && Related(g, a, b);
      }
    }
  }

  lemma SmallerSubset(a: set<nat>, b: set<nat>)
    requires a < b
    ensures |a| < |b|
  {
    var x :| x in b - a;
    assert b == (b - a) + a;
    assert |b| == |b - a| + |a|;
  }

  /** All relatives of a set of transactions. */
  method Neighbours(g: Cluster, which: set<nat>) returns (r: set<nat>)
    requires g.Consistent() && which <= g.used
    ensures forall b | b in g.used :: b in r <==> NearAny(g, which, b)
  {
    r := {};
    var rest := which;
    while rest != {}
      invariant rest <= which
      invariant forall b | b in g.used :: b in r <==> NearAny(g, which - rest, b)
    {
      var add := First(rest);
      ghost var before := which - rest;
      rest := rest - {add};
      r := r + g.Desc(add) + g.Anc(add);
      assert which - rest == before + {add};
    }
  }

  lemma ComponentConnected(g: Cluster, todo: set<nat>, tx: nat, ret: set<nat>)
    requires tx in ret && ret <= todo && Separated(g, todo, ret)
    requires InEveryPart(g, todo, tx, ret)
    ensures Connected(g, ret)
  {
    forall part | part <= ret && part != {} && Separated(g, ret, part) ensures part == ret {
      var other := ret - part;
      if tx in part {
        assert Separated(g, todo, part);
      } else {
        forall a, b | a in other && b in todo && Related(g, a, b) ensures b in other {
          assert Related(g, b, a);
        }
        assert Separated(g, todo, other);
      }
    }
  }

  /** The order AppendTopo sorts by: fewer ancestors first, then lower position. */
  predicate Earlier(g: Cluster, a: nat, b: nat) {
    |g.Anc(a)| < |g.Anc(b)| || (|g.Anc(a)| == |g.Anc(b)| && a < b)
  }

  ghost predicate EarlierThanAll(g: Cluster, a: nat, s: set<nat>) {
    forall b | b in s && b != a :: Earlier(g, a, b)
  }

  ghost predicate SortedByAncestors(g: Cluster, s: seq<nat>) {
    forall i, j | 0 <= i < j < |s| :: Earlier(g, s[i], s[j])
  }

  method EarliestOf(g: Cluster, s: set<nat>) returns (first: nat)
    requires s != {}
    ensures first in s && EarlierThanAll(g, first, s)
  {
    first := First(s);
    var rest := s - {first};
    while rest != {}
      invariant rest <= s && first in s - rest
      invariant EarlierThanAll(g, first, s - rest)
    {
      var b := First(rest);
      assert s - (rest - {b}) == s - rest + {b};
      rest := rest - {b};
      if Earlier(g, b, first) {
        first := b;
      }
    }
  }

  /** Append the transactions of `select` in a topologically valid order. */
  method AppendTopo(g: Cluster, list: seq<nat>, select: set<nat>) returns (r: seq<nat>)
    ensures list <= r
    ensures Elems(r[|list|..]) == select && NoDup(r[|list|..]) && SortedByAncestors(g, r[|list|..])
    ensures g.Consistent() && g.Acyclic() && select <= g.used ==> Topological(g, r[|list|..])
  {
    r := list;
    var rest := select;
    while rest != {}
      invariant rest <= select && list <= r
      invariant PartlySorted(g, r[|list|..], select, rest)
    {
      var i := EarliestOf(g, rest);
      PartlySortedStep(g, r[|list|..], select, rest, i);
      rest := rest - {i};
      assert (r + [i])[|list|..] == r[|list|..] + [i];
      r := r + [i];
    }
    if g.Consistent() && g.Acyclic() && select <= g.used {
      SortedIsTopological(g, r[|list|..]);
    }
  }

  ghost predicate PartlySorted(g: Cluster, s: seq<nat>, select: set<nat>, rest: set<nat>) {
    && Elems(s) == select - rest && NoDup(s) && SortedByAncestors(g, s)
    && forall a, b | a in s && b in rest :: Earlier(g, a, b)
  }

  lemma PartlySortedStep(g: Cluster, s: seq<nat>, select: set<nat>, rest: set<nat>, i: nat)
    requires PartlySorted(g, s, select, rest) && rest <= select && i in rest && EarlierThanAll(g, i, rest)
    ensures PartlySorted(g, s + [i], select, rest - {i})
  {
    ElemsConcat(s, [i]);
    NoDupConcat(s, [i]);
    ElemsOne(i);
    var t := s + [i];
    forall k, m | 0 <= k < m < |t| ensures Earlier(g, t[k], t[m]) {
      if m == |s| {
        assert s[k] in s;
      }
    }
  }

  lemma SortedIsTopological(g: Cluster, s: seq<nat>)
    requires g.Consistent() && g.Acyclic() && Elems(s) <= g.used
    requires NoDup(s) && SortedByAncestors(g, s)
    ensures Topological(g, s)
  {
    forall i, j | 0 <= i < |s| && 0 <= j < |s| && s[i] in g.Anc(s[j]) ensures i <= j {
      assert s[i] in Elems(s) && s[j] in Elems(s);
      if s[i] != s[j] {
        FewerAncestors(g, s[i], s[j]);
      }
    }
  }

  lemma FewerAncestors(g: Cluster, a: nat, d: nat)
    requires g.Consistent() && g.Acyclic() && d in g.used && a in g.Anc(d) && a != d
    ensures |g.Anc(a)| < |g.Anc(d)|
  {
    assert d !in g.Anc(a);
    SmallerSubset(g.Anc(a), g.Anc(d));
  }
}
