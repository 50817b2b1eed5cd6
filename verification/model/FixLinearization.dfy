/** Making an order topological in place (FixLinearization in src/cluster_linearize.h). */
module FixingLinearizations {
  import opened Positions
  import opened Clusters

  /** Put `x` in front of `t`, but behind the last of its ancestors there. */
  function PlaceBehindAncestors(g: Cluster, x: nat, t: seq<nat>): seq<nat> {
    if Elems(t) * g.Anc(x) == {} then [x] + t
    else if t == [] then [x]
    else [t[0]] + PlaceBehindAncestors(g, x, t[1..])
  }

  /** Every element, from the back to the front, placed behind its ancestors. */
  function Fixed(g: Cluster, s: seq<nat>): seq<nat> {
    if s == [] then [] else PlaceBehindAncestors(g, s[0], Fixed(g, s[1..]))
  }

  lemma {:induction false} PlacedElems(g: Cluster, x: nat, t: seq<nat>)
    ensures Elems(PlaceBehindAncestors(g, x, t)) == Elems(t) + {x}
    ensures |PlaceBehindAncestors(g, x, t)| == |t| + 1
    ensures NoDup(t) && x !in t ==> NoDup(PlaceBehindAncestors(g, x, t))
  {
    ElemsOne(x);
    if Elems(t) * g.Anc(x) == {} {
      ElemsConcat([x], t);
      NoDupConcat([x], t);
    } else if t != [] {
      var r := PlaceBehindAncestors(g, x, t[1..]);
      PlacedElems(g, x, t[1..]);
      assert t == [t[0]] + t[1..];
      ElemsOne(t[0]);
      ElemsConcat([t[0]], r);
      ElemsConcat([t[0]], t[1..]);
      NoDupConcat([t[0]], r);
      NoDupConcat([t[0]], t[1..]);
    }
  }

  /** No transaction in `t` needs `x` before a place that `x` does not get. */
  lemma {:induction false} PlacedTopological(g: Cluster, x: nat, t: seq<nat>)
    requires g.Consistent() && g.Acyclic() && x in g.used && Elems(t) <= g.used
    requires Topological(g, t) && x !in t
    ensures Topological(g, PlaceBehindAncestors(g, x, t))
  {
    PlacedElems(g, x, t);
    if Elems(t) * g.Anc(x) == {} {
      ElemsOne(x);
      TopologicalConcat(g, [x], t);
    } else {
      var h, r := [t[0]], t[1..];
      assert t == h + r;
      ElemsOne(t[0]);
      ElemsConcat(h, r);
      NoDupConcat(h, r);
      PrefixClosed(g, h, r);
      PlacedTopological(g, x, r);
      PlacedElems(g, x, r);
      HeadStays(g, x, t);
      TopologicalConcat(g, h, PlaceBehindAncestors(g, x, r));
    }
  }

  /** If some transaction of `t` is an ancestor of `x`, then `x` is no ancestor of the head. */
  lemma HeadStays(g: Cluster, x: nat, t: seq<nat>)
    requires g.Consistent() && g.Acyclic() && x in g.used && Elems(t) <= g.used
    requires Topological(g, t) && x !in t && Elems(t) * g.Anc(x) != {}
    ensures x !in g.Anc(t[0])
  {
    assert t[0] in Elems(t);
    var a :| a in Elems(t) && a in g.Anc(x);
    var k :| 0 <= k < |t| && t[k] == a;
    var h := t[0];
    assert x in g.Anc(h) ==> a in g.Anc(h) && k == 0;
  }

  /** Fixing permutes and makes topological. */
  lemma {:induction false} FixedIsTopological(g: Cluster, s: seq<nat>)
    requires g.Consistent() && g.Acyclic() && Elems(s) <= g.used && NoDup(s)
    ensures Elems(Fixed(g, s)) == Elems(s) && |Fixed(g, s)| == |s|
    ensures Topological(g, Fixed(g, s))
  {
    if s != [] {
      var h, r := [s[0]], s[1..];
      assert s == h + r;
      ElemsOne(s[0]);
      ElemsConcat(h, r);
      NoDupConcat(h, r);
      FixedIsTopological(g, r);
      PlacedElems(g, s[0], Fixed(g, r));
      assert s[0] !in Elems(Fixed(g, r));
      PlacedTopological(g, s[0], Fixed(g, r));
    }
  }

  /** An order that is topological already stays as it is. */
  lemma {:induction false} FixedKeepsTopological(g: Cluster, s: seq<nat>)
    requires Topological(g, s)
    ensures Fixed(g, s) == s
  {
    if s != [] {
      var h, r := [s[0]], s[1..];
      assert s == h + r;
      PrefixClosed(g, h, r);
      ElemsOne(s[0]);
      NoDupConcat(h, r);
      ElemsConcat(h, r);
      FixedKeepsTopological(g, r);
      assert Elems(r) * g.Anc(s[0]) == {};
    }
  }

  method FixLinearization(g: Cluster, linearization: array<nat>)
    requires g.Consistent() && g.Acyclic()
    requires NoDup(linearization[..]) && Elems(linearization[..]) <= g.used
    modifies linearization
    ensures linearization[..] == Fixed(g, old(linearization[..]))
    ensures Topological(g, linearization[..]) && multiset(linearization[..]) == multiset(old(linearization[..]))
    ensures Topological(g, old(linearization[..])) ==> linearization[..] == old(linearization[..])
  {
    ghost var start := linearization[..];
    var done: set<nat> := {};
    var len := linearization.Length;
    var i := 0;
    assert start[len..] == [];
    while i < len
      invariant 0 <= i <= len == |start| == linearization.Length
      invariant linearization[..] == start[..len - i] + Fixed(g, start[len - i..])
      invariant done == Elems(Fixed(g, start[len - i..]))
    {
      ghost var p, t := len - 1 - i, Fixed(g, start[len - i..]);
      FixSuffix(g, start, p);
      PlacedElems(g, start[p], t);
      var elem := linearization[len - 1 - i];
      MoveBehindAncestors(g, linearization, i, elem, done, start[..p], t);
      done := done + {elem};
      i := i + 1;
    }
    assert start[..0] + Fixed(g, start[0..]) == Fixed(g, start) by { assert start[0..] == start; }
    FixedIsTopological(g, start);
    SameElements(linearization[..], start);
    if Topological(g, start) {
      FixedKeepsTopological(g, start);
    }
  }

  /** The inner loop: move the element at distance `i` from the back until it is placed behind all
      its ancestors among those already done.  The distance `j` never reaches 0 with any left. */
  method MoveBehindAncestors(g: Cluster, linearization: array<nat>, i: nat, elem: nat, done: set<nat>,
                             ghost front: seq<nat>, ghost t: seq<nat>)
    requires linearization[..] == front + [elem] + t
    requires |t| == i && NoDup(t) && done == Elems(t)
    modifies linearization
    ensures linearization[..] == front + PlaceBehindAncestors(g, elem, t)
  {
    var len := linearization.Length;
    var j := i;
    var placeBefore := done * g.Anc(elem);
    ghost var k := 0;
    assert t[0..] == t;
    while placeBefore != {}
      invariant j + k == i && linearization.Length == len
      invariant Moving(g, elem, linearization[..], front, t, k, placeBefore)
      decreases j
    {
      var gap := len - 1 - j;
      MovingStep(g, elem, linearization[..], front, t, k, placeBefore, gap);
      assert j > 0;
      var toSwap := SwapForward(linearization, gap);
      placeBefore := placeBefore - {toSwap};
      j := j - 1;
      k := k + 1;
    }
    ShiftedDone(linearization[..], front, t, k, elem);
    PlacedAt(g, elem, t, k);
    Put(linearization, len - 1 - j, elem);
  }

  /** Move the element behind the gap into it. */
  method SwapForward(linearization: array<nat>, gap: nat) returns (toSwap: nat)
    requires gap + 1 < linearization.Length
    modifies linearization
    ensures toSwap == old(linearization[..])[gap + 1]
    ensures linearization[..] == old(linearization[..])[gap := toSwap]
  {
    toSwap := linearization[gap + 1];
    linearization[gap] := toSwap;
  }

  method Put(linearization: array<nat>, gap: nat, elem: nat)
    requires gap < linearization.Length
    modifies linearization
    ensures linearization[..] == old(linearization[..])[gap := elem]
  {
    linearization[gap] := elem;
  }

  /** What holds in the inner loop, `k` elements having moved in front of the gap. */
  ghost predicate Moving(g: Cluster, elem: nat, s: seq<nat>, front: seq<nat>, t: seq<nat>, k: nat, placeBefore: set<nat>) {
    && NoDup(t) && Shifted(s, front, t, k)
    && placeBefore == Elems(t[k..]) * g.Anc(elem)
    && forall q | 0 <= q < k :: Elems(t[q..]) * g.Anc(elem) != {}
  }

  lemma MovingStep(g: Cluster, elem: nat, s: seq<nat>, front: seq<nat>, t: seq<nat>, k: nat, placeBefore: set<nat>, gap: nat)
    requires Moving(g, elem, s, front, t, k, placeBefore) && placeBefore != {}
    requires gap == |front| + k
    ensures k < |t| && gap + 1 < |s|
    ensures Moving(g, elem, s[gap := s[gap + 1]], front, t, k + 1, placeBefore - {s[gap + 1]})
  {
    assert k < |t| by { assert t[k..] != []; }
    ShiftedNext(s, front, t, k);
    TailElems(t, k);
  }

  /** The first `k` elements behind the gap have moved in front of it. */
  ghost predicate Shifted(s: seq<nat>, front: seq<nat>, t: seq<nat>, k: nat) {
    && |s| == |front| + 1 + |t| && k <= |t|
    && (forall q | 0 <= q < |front| :: s[q] == front[q])
    && (forall q | 0 <= q < k :: s[|front| + q] == t[q])
    && (forall q | k <= q < |t| :: s[|front| + 1 + q] == t[q])
  }

  lemma ShiftedNext(s: seq<nat>, front: seq<nat>, t: seq<nat>, k: nat)
    requires Shifted(s, front, t, k) && k < |t|
    ensures s[|s| - |t| + k] == t[k]
    ensures Shifted(s[|front| + k := t[k]], front, t, k + 1)
  {
  }

  lemma ShiftedDone(s: seq<nat>, front: seq<nat>, t: seq<nat>, k: nat, elem: nat)
    requires Shifted(s, front, t, k)
    ensures s[|front| + k := elem] == front + (t[..k] + ([elem] + t[k..]))
  {
    var r := front + (t[..k] + ([elem] + t[k..]));
    var u := s[|front| + k := elem];
    forall q | 0 <= q < |u| ensures u[q] == r[q] {
      if |front| + k < q {
        assert u[q] == s[|front| + 1 + (q - |front| - 1)];
      } else if |front| <= q < |front| + k {
        assert u[q] == s[|front| + (q - |front|)];
      }
    }
  }

  /** The suffix already fixed has no duplicates and misses the next element. */
  lemma FixSuffix(g: Cluster, start: seq<nat>, p: nat)
    requires g.Consistent() && g.Acyclic() && NoDup(start) && Elems(start) <= g.used && p < |start|
    ensures |Fixed(g, start[p + 1..])| == |start| - p - 1
    ensures NoDup(Fixed(g, start[p + 1..])) && start[p] !in Fixed(g, start[p + 1..])
    ensures Fixed(g, start[p..]) == PlaceBehindAncestors(g, start[p], Fixed(g, start[p + 1..]))
    ensures start[..p + 1] == start[..p] + [start[p]]
  {
    var r := start[p + 1..];
    assert start == start[..p + 1] + r;
    NoDupConcat(start[..p + 1], r);
    ElemsConcat(start[..p + 1], r);
    FixedIsTopological(g, r);
    assert start[p..][1..] == r;
    assert start[p] in Elems(start[..p + 1]);
    assert start[p] !in Elems(Fixed(g, r));
  }

  /** `x` ends up behind the shortest part of `t` that holds all its ancestors there. */
  lemma {:induction false} PlacedAt(g: Cluster, x: nat, t: seq<nat>, k: nat)
    requires k <= |t| && Elems(t[k..]) * g.Anc(x) == {}
    requires forall q | 0 <= q < k :: Elems(t[q..]) * g.Anc(x) != {}
    ensures PlaceBehindAncestors(g, x, t) == t[..k] + ([x] + t[k..])
  {
    hide Elems;
    assert t[0..] == t;
    if k > 0 {
      var r := t[1..];
      assert r[k - 1..] == t[k..];
      forall q | 0 <= q < k - 1 ensures Elems(r[q..]) * g.Anc(x) != {} {
        assert r[q..] == t[q + 1..];
      }
      PlacedAt(g, x, r, k - 1);
      assert t[..k] == [t[0]] + r[..k - 1];
    }
  }

  lemma TailElems(t: seq<nat>, k: nat)
    requires k < |t| && NoDup(t)
    ensures Elems(t[k + 1..]) == Elems(t[k..]) - {t[k]}
  {
    var u, v := t[k..], t[k + 1..];
    assert t == t[..k] + u && u == [t[k]] + v;
    NoDupConcat(t[..k], u);
    NoDupConcat([t[k]], v);
    ElemsConcat([t[k]], v);
    ElemsOne(t[k]);
  }

  lemma {:induction false} SameElements(a: seq<nat>, b: seq<nat>)
    requires NoDup(a) && NoDup(b) && Elems(a) == Elems(b)
    ensures multiset(a) == multiset(b)
  {
    CountOnce(a);
    CountOnce(b);
  }

  lemma {:induction false} CountOnce(s: seq<nat>)
    requires NoDup(s)
    ensures multiset(s) == multiset(Elems(s))
  {
    if s != [] {
      var h, r := [s[0]], s[1..];
      assert s == h + r;
      NoDupConcat(h, r);
      ElemsConcat(h, r);
      ElemsOne(s[0]);
      CountOnce(r);
      assert multiset(s) == multiset{s[0]} + multiset(r);
    }
  }
}
