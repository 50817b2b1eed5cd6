/** What PostLinearize (src/cluster_linearize.h) promises when a transaction without children is replaced by one that
    pays more: moving it to the end of the linearization first does not make the result worse than before. */
module MovedLeaves {
  import opened FeeFracs
  import opened Positions
  import opened Clusters
  import opened Chunkings
  import opened Diagrams
  import opened DepGraphs
  import opened PostGroups
  import opened PostTrees
  import opened Reversals
  import opened PostLinearizing

  // ----- a pass with one more transaction in front, which nothing depends on for a while

  /** The groups with `t` put in as a group of its own. */
  function With(cs: seq<seq<nat>>, k: nat, t: nat): seq<seq<nat>>
    requires k <= |cs|
  {
    cs[..k] + [[t]] + cs[k..]
  }

  ghost predicate Apart(g: Cluster, c: seq<nat>, t: nat) {
    forall y | y in c :: t !in g.Anc(y)
  }

  ghost predicate AllApart(g: Cluster, cs: seq<seq<nat>>, t: nat) {
    forall k | 0 <= k < |cs| :: Apart(g, cs[k], t)
  }

  ghost predicate AllPositive(g: Cluster, cs: seq<seq<nat>>) {
    forall k | 0 <= k < |cs| :: SeqRate(g, cs[k]).size > 0
  }

  lemma ApartNotDepending(g: Cluster, c: seq<nat>, t: nat)
    requires Apart(g, c, t)
    ensures !DependsOn(g, c, [t])
  {
    ElemsOne(t);
    forall x | x in c ensures g.Anc(x) * Elems([t]) == {} {
    }
  }

  /** The groups already passed stay where they are. */
  lemma {:induction false} SettleAfter(g: Cluster, before: seq<seq<nat>>, cur: seq<nat>, after: seq<seq<nat>>)
    ensures Settle(g, before, cur, after) == Settle(g, before, cur, []) + after
    decreases |before|
  {
    hide SeqRate, DependsOn;
    if before != [] && SeqRate(g, cur).Higher(SeqRate(g, before[|before| - 1])) {
      var init, last := before[..|before| - 1], before[|before| - 1];
      if DependsOn(g, cur, last) {
        SettleAfter(g, init, last + cur, after);
      } else {
        SettleAfter(g, init, cur, [last] + after);
        SettleAfter(g, init, cur, [last] + []);
      }
    }
  }

  /** The state of a moving group that does not depend on `t`, which is among the groups before it. */
  ghost predicate Passing(g: Cluster, before: seq<seq<nat>>, k: nat, cur: seq<nat>, t: nat) {
    && k <= |before| && Apart(g, cur, t) && AllApart(g, before, t)
    && Descending(g, With(before, k, t)) && AllPositive(g, With(before, k, t)) && SeqRate(g, cur).size > 0
  }

  /** A group moves alike whether or not `t` is among the groups before it. */
  lemma {:induction false} SettleWith(g: Cluster, before: seq<seq<nat>>, k: nat, cur: seq<nat>, after: seq<seq<nat>>, t: nat) returns (m: nat)
    requires k <= |before| && Passing(g, before, k, cur, t)
    ensures m <= |Settle(g, before, cur, after)|
    ensures Settle(g, With(before, k, t), cur, after) == With(Settle(g, before, cur, after), m, t)
    decreases |before|
  {
    hide SeqRate, DependsOn, Passing;
    if k == |before| {
      m := SettlePast(g, before, cur, after, t);
    } else {
      var n := |before| - 1;
      var init, last := before[..n], before[n];
      PassingInit(g, before, k, cur, t);
      var all := With(before, k, t);
      assert all[..|all| - 1] == With(init, k, t) && all[|all| - 1] == last;
      if SeqRate(g, cur).Higher(SeqRate(g, last)) {
        if DependsOn(g, cur, last) {
          m := SettleWith(g, init, k, last + cur, after, t);
        } else {
          m := SettleWith(g, init, k, cur, [last] + after, t);
        }
      } else {
        m := k;
        assert With(before, k, t) + [cur] + after == With(before + [cur] + after, k, t);
      }
    }
  }

  lemma PassingInit(g: Cluster, before: seq<seq<nat>>, k: nat, cur: seq<nat>, t: nat)
    requires Passing(g, before, k, cur, t) && k < |before|
    ensures var init, last := before[..|before| - 1], before[|before| - 1];
            k <= |init| && Passing(g, init, k, cur, t) && Passing(g, init, k, last + cur, t)
  {
    hide SeqRate;
    var n := |before| - 1;
    var init, last := before[..n], before[n];
    var all, less := With(before, k, t), With(init, k, t);
    assert less == all[..|all| - 1] && all[|all| - 1] == last;
    assert forall i | 0 <= i < |less| :: less[i] == all[i];
    SeqRateConcat(g, last, cur);
    assert Apart(g, last, t);
  }

  lemma SettlePast(g: Cluster, before: seq<seq<nat>>, cur: seq<nat>, after: seq<seq<nat>>, t: nat) returns (m: nat)
    requires Passing(g, before, |before|, cur, t)
    ensures m <= |Settle(g, before, cur, after)|
    ensures Settle(g, With(before, |before|, t), cur, after) == With(Settle(g, before, cur, after), m, t)
  {
    hide SeqRate, DependsOn, Passing;
    var all := With(before, |before|, t);
    assert all == before + [[t]] && all[..|all| - 1] == before;
    if SeqRate(g, cur).Higher(SeqRate(g, [t])) {
      CanPass(g, before, cur, t);
      SettleAfter(g, before, cur, [[t]] + after);
      SettleAfter(g, before, cur, after);
      m := |Settle(g, before, cur, [])|;
    } else {
      if before != [] {
        StaysBehind(g, before, cur, t);
      }
      m := |before|;
      assert all + [cur] + after == With(before + [cur] + after, m, t);
    }
  }

  lemma CanPass(g: Cluster, before: seq<seq<nat>>, cur: seq<nat>, t: nat)
    requires Passing(g, before, |before|, cur, t)
    ensures !DependsOn(g, cur, [t])
  {
    ApartNotDepending(g, cur, t);
  }

  lemma StaysBehind(g: Cluster, before: seq<seq<nat>>, cur: seq<nat>, t: nat)
    requires Passing(g, before, |before|, cur, t) && !SeqRate(g, cur).Higher(SeqRate(g, [t])) && before != []
    ensures !SeqRate(g, cur).Higher(SeqRate(g, before[|before| - 1]))
  {
    hide SeqRate;
    var all, n := With(before, |before|, t), |before|;
    assert all[n] == [t] && all[n - 1] == before[n - 1];
    assert !SeqRate(g, all[n]).Higher(SeqRate(g, all[n - 1]));
    NotHigherTransitive(SeqRate(g, all[n - 1]), SeqRate(g, [t]), SeqRate(g, cur));
  }

  /** The groups with `t` in front are those without it, and `t` as a group of its own among them. */
  lemma {:induction false} GroupsWith(g: Cluster, t: nat, b: seq<nat>) returns (m: nat)
    requires Topological(g, [t] + b) && SizedSeq(g, [t] + b) && Apart(g, b, t)
    ensures m <= |Groups(g, b)| && Groups(g, [t] + b) == With(Groups(g, b), m, t)
  {
    hide Settle, Topological, SeqRate, Passing;
    var lin := [t] + b;
    if b == [] {
      OneGroup(g, t);
      assert lin == [t];
      m := 0;
    } else {
      var n := |b| - 1;
      var init, y := b[..n], b[n];
      assert b == init + [y] && lin == [t] + init + [y] && lin[..n + 1] == [t] + init;
      PrefixClosed(g, [t] + init, [y]);
      var k := GroupsWith(g, t, init);
      StartPassing(g, t, init, y, k);
      m := SettleWith(g, Groups(g, init), k, [y], [], t);
    }
  }

  lemma OneGroup(g: Cluster, t: nat)
    ensures Groups(g, [t]) == [[t]] && Groups(g, []) == []
  {
    assert [t][..0] == [];
  }

  lemma StartPassing(g: Cluster, t: nat, init: seq<nat>, y: nat, k: nat)
    requires Topological(g, [t] + init + [y]) && SizedSeq(g, [t] + (init + [y])) && Apart(g, init + [y], t)
    requires k <= |Groups(g, init)| && Groups(g, [t] + init) == With(Groups(g, init), k, t)
    ensures Passing(g, Groups(g, init), k, [y], t)
  {
    hide Groups, SeqRate, Topological, Apart, Descending, AllPositive, SizedSeq;
    assert [t] + (init + [y]) == [t] + init + [y];
    PartsSized(g, [t], init, [y]);
    GoodPositive(g, [t] + init, [y]);
    LastPositive(g, [t] + init, y);
    GroupsApart(g, t, init, y);
  }

  lemma GoodPositive(g: Cluster, lin: seq<nat>, rest: seq<nat>)
    requires Topological(g, lin + rest) && SizedSeq(g, lin)
    ensures Descending(g, Groups(g, lin)) && AllPositive(g, Groups(g, lin))
  {
    hide Groups, SeqRate, Topological, Tight, Connected, Dominates, SizedSeq;
    PassWorks(g, lin, rest);
    SameSized(g, lin, Flatten(Groups(g, lin)));
    FlattenSized(g, Groups(g, lin));
  }

  lemma LastPositive(g: Cluster, init: seq<nat>, y: nat)
    requires SizedSeq(g, init + [y])
    ensures SeqRate(g, [y]).size > 0
  {
    SeqRateOne(g, y);
    assert y in init + [y];
  }

  lemma GroupsApart(g: Cluster, t: nat, init: seq<nat>, y: nat)
    requires Apart(g, init + [y], t)
    ensures AllApart(g, Groups(g, init), t) && Apart(g, [y], t)
  {
    hide Groups;
    var cs := Groups(g, init);
    GroupsPermute(g, init);
    forall j | 0 <= j < |cs| ensures Apart(g, cs[j], t) {
      ChunkInside(cs, j);
      forall i | i in cs[j] ensures t !in g.Anc(i) {
        assert i in multiset(Flatten(cs));
        assert i in init + [y];
      }
    }
    assert y in init + [y];
  }

  // ----- what the pass gains

  lemma {:induction false} DescendingAll(g: Cluster, cs: seq<seq<nat>>, i: nat, j: nat)
    requires Descending(g, cs) && AllPositive(g, cs) && i < j < |cs|
    ensures !SeqRate(g, cs[j]).Higher(SeqRate(g, cs[i]))
  {
    hide SeqRate;
    if i + 1 < j {
      DescendingAll(g, cs, i, j - 1);
      NotHigherTransitive(SeqRate(g, cs[i]), SeqRate(g, cs[j - 1]), SeqRate(g, cs[j]));
    }
  }

  /** Moving `t` forward past groups of feerates that are not higher does not make the order worse. */
  lemma {:induction false} MoveForward(g: Cluster, t: nat, ys: seq<seq<nat>>, z: seq<nat>)
    requires AllTight(g, ys) && SizedSeq(g, [t] + Flatten(ys))
    requires forall k | 0 <= k < |ys| :: !SeqRate(g, ys[k]).Higher(SeqRate(g, [t]))
    ensures Dominates(g, [t] + Flatten(ys) + z, Flatten(ys) + [t] + z)
    decreases |ys|
  {
    hide Dominates, SeqRate;
    if ys == [] {
      assert [t] + Flatten(ys) + z == [t] + z && Flatten(ys) + [t] + z == [t] + z;
      DominatesRefl(g, [t] + z);
    } else {
      var y, rest := ys[0], ys[1..];
      var f := Flatten(rest);
      assert Flatten(ys) == y + f;
      assert SizedSeq(g, y + [t]) && SizedSeq(g, [t] + f) by {
        forall i | i in y + [t] || i in [t] + f ensures i in [t] + (y + f) {
        }
      }
      assert forall k | 0 <= k < |rest| :: rest[k] == ys[k + 1];
      MoveForward(g, t, rest, z);
      DominatesAppend(g, y, [t] + f + z, f + [t] + z);
      TightOne(g, t);
      SwapDominates(g, y, [t], f + z);
      Reassociate(y, [t], f, z);
      DominatesTrans(g, [t] + (y + f) + z, y + ([t] + f + z), y + f + [t] + z);
    }
  }

  lemma TightOne(g: Cluster, t: nat)
    ensures Tight(g, [t])
  {
  }

  lemma Reassociate(y: seq<nat>, t: seq<nat>, f: seq<nat>, z: seq<nat>)
    ensures t + y + (f + z) == t + (y + f) + z && y + t + (f + z) == y + (t + f + z) && y + (f + t + z) == y + f + t + z
  {
  }

  /** The rest of a pass does not make the order worse. */
  lemma {:induction false} PassFrom(g: Cluster, lin: seq<nat>, k: nat, rest: seq<nat>)
    requires Topological(g, lin + rest) && SizedSeq(g, lin) && k <= |lin|
    ensures Dominates(g, Flatten(Groups(g, lin)) + rest, Flatten(Groups(g, lin[..k])) + lin[k..] + rest)
    decreases |lin|
  {
    hide Dominates, Topological, Groups;
    if k == |lin| {
      assert lin[..k] == lin && lin[k..] == [];
      var f := Flatten(Groups(g, lin));
      assert f + [] + rest == f + rest;
      DominatesRefl(g, f + rest);
    } else {
      var n := |lin| - 1;
      var init, x := lin[..n], lin[n];
      assert lin == init + [x] && lin + rest == init + ([x] + rest) && init[..k] == lin[..k] && lin[k..] == init[k..] + [x];
      PassFrom(g, init, k, [x] + rest);
      var f := Flatten(Groups(g, lin[..k]));
      assert f + init[k..] + ([x] + rest) == f + lin[k..] + rest;
      PassStep(g, init, x, rest);
      DominatesTrans(g, Flatten(Groups(g, lin)) + rest, Flatten(Groups(g, init)) + ([x] + rest), f + lin[k..] + rest);
    }
  }

  lemma PassStep(g: Cluster, init: seq<nat>, x: nat, rest: seq<nat>)
    requires Topological(g, init + ([x] + rest)) && SizedSeq(g, init + [x])
    ensures Dominates(g, Flatten(Groups(g, init + [x])) + rest, Flatten(Groups(g, init)) + ([x] + rest))
  {
    hide Dominates, Settling, Settle;
    var lin, cs := init + [x], Groups(g, init);
    assert lin[..|lin| - 1] == init;
    PassWorks(g, init, [x] + rest);
    assert Order(cs, [x], []) == Flatten(cs) + [x];
    assert Order(cs, [x], []) + rest == Flatten(cs) + ([x] + rest);
    StartGroup(g, cs, init, x);
    SettleWorks(g, cs, [x], [], rest);
  }

  /** A pass with `t` first is at least as good as the order with `t` behind `b`, if that is also valid. */
  lemma FirstMoved(g: Cluster, t: nat, b: seq<nat>, a: seq<nat>)
    requires Topological(g, [t] + b + a) && Topological(g, b + ([t] + a)) && SizedSeq(g, [t] + b + a)
    ensures Dominates(g, Flatten(Groups(g, [t] + b + a)), b + ([t] + a))
  {
    hide Dominates, Groups, Settled, Descending, AllTight, SeqRate, Topological, SizedSeq, Apart, With, Flatten;
    var lin, n := [t] + b + a, |b| + 1;
    assert lin[..n] == [t] + b && lin[n..] == a && lin + [] == lin;
    NotBehind(g, t, b, a);
    PartsSized(g, [t], b, a);
    PrefixClosed(g, [t] + b, a);
    var m := GroupsWith(g, t, b);
    var cs := Groups(g, b);
    var f, x, y := Flatten(Groups(g, lin)), Flatten(cs[..m]), Flatten(cs[m..]);
    PassFrom(g, lin, n, []);
    WithFlat(cs, m, t);
    assert f + [] == f && x + [t] + y + a + [] == x + ([t] + y + a);
    PassWorks(g, b, [t] + a);
    PassWorks(g, [t] + b, a);
    LowerBehind(g, t, b, a, m);
    MoveForward(g, t, cs[m..], a);
    DominatesAppend(g, x, [t] + y + a, y + [t] + a);
    assert x + (y + [t] + a) == Flatten(cs) + ([t] + a);
    SettledBetter(g, b, cs, [t] + a);
    DominatesTrans(g, f, x + ([t] + y + a), Flatten(cs) + ([t] + a));
    DominatesTrans(g, f, Flatten(cs) + ([t] + a), b + ([t] + a));
  }

  lemma SettledBetter(g: Cluster, old_: seq<nat>, cs: seq<seq<nat>>, rest: seq<nat>)
    requires Settled(g, old_, cs, rest)
    ensures Dominates(g, Flatten(cs) + rest, old_ + rest)
  {
  }

  lemma NotBehind(g: Cluster, t: nat, b: seq<nat>, a: seq<nat>)
    requires Topological(g, b + ([t] + a))
    ensures Apart(g, b, t)
  {
    var all := b + ([t] + a);
    assert all[|b|] == t;
    forall y | y in b ensures t !in g.Anc(y) {
      var i :| 0 <= i < |b| && b[i] == y;
      assert all[i] == y;
      assert all[|b|] in g.Anc(all[i]) ==> |b| <= i;
    }
  }

  lemma PartsSized(g: Cluster, t: seq<nat>, b: seq<nat>, a: seq<nat>)
    requires SizedSeq(g, t + b + a)
    ensures SizedSeq(g, t + b) && SizedSeq(g, b)
  {
    forall i | i in t + b || i in b ensures i in t + b + a {
    }
  }

  lemma WithFlat(cs: seq<seq<nat>>, m: nat, t: nat)
    requires m <= |cs|
    ensures Flatten(With(cs, m, t)) == Flatten(cs[..m]) + [t] + Flatten(cs[m..]) && Flatten(cs) == Flatten(cs[..m]) + Flatten(cs[m..])
  {
    FlattenPrefix(cs, m);
    FlattenConcat(cs[..m] + [[t]], cs[m..]);
    FlattenSnoc(cs[..m], [t]);
  }

  /** The groups behind `t` are tight, and their feerates not higher. */
  lemma LowerBehind(g: Cluster, t: nat, b: seq<nat>, a: seq<nat>, m: nat)
    requires m <= |Groups(g, b)| && Groups(g, [t] + b) == With(Groups(g, b), m, t)
    requires Settled(g, [t] + b, Groups(g, [t] + b), a) && SizedSeq(g, [t] + b)
    ensures var ys := Groups(g, b)[m..];
            && AllTight(g, ys) && SizedSeq(g, [t] + Flatten(ys))
            && forall k | 0 <= k < |ys| :: !SeqRate(g, ys[k]).Higher(SeqRate(g, [t]))
  {
    hide Groups, SeqRate, Settled, SizedSeq, AllTight, Descending, Flatten;
    var cs, all := Groups(g, b), Groups(g, [t] + b);
    SettledFacts(g, [t] + b, all, a);
    WithFlat(cs, m, t);
    SameSized(g, [t] + b, Flatten(all));
    PartSized(g, Flatten(cs[..m]), [t], Flatten(cs[m..]));
    GroupsBehind(g, cs, m, t);
  }

  lemma GroupsBehind(g: Cluster, cs: seq<seq<nat>>, m: nat, t: nat)
    requires m <= |cs| && GoodGroups(g, With(cs, m, t)) && SizedSeq(g, Flatten(With(cs, m, t)))
    ensures AllTight(g, cs[m..]) && forall k | 0 <= k < |cs[m..]| :: !SeqRate(g, cs[m..][k]).Higher(SeqRate(g, [t]))
  {
    hide SeqRate, SizedSeq, Tight, Descending, Flatten, AllConnected;
    var all, ys := With(cs, m, t), cs[m..];
    assert forall k | 0 <= k < |ys| :: ys[k] == all[m + 1 + k];
    assert all[m] == [t];
    FlattenSized(g, all);
    forall k | 0 <= k < |ys| ensures !SeqRate(g, ys[k]).Higher(SeqRate(g, [t])) {
      DescendingAll(g, all, m, m + 1 + k);
    }
  }

  lemma PartSized(g: Cluster, x: seq<nat>, t: seq<nat>, y: seq<nat>)
    requires SizedSeq(g, x + t + y)
    ensures SizedSeq(g, t + y)
  {
    forall i | i in t + y ensures i in x + t + y {
    }
  }

  // ----- moving a leaf

  /** A transaction without descendants can be moved to the end. */
  lemma LeafLast(g: Cluster, x: seq<nat>, t: nat, y: seq<nat>)
    requires g.Valid() && Linearizes(g, g.used, x + [t] + y) && g.Desc(t) == {t}
    ensures Linearizes(g, g.used, x + y + [t])
  {
    var lin := x + [t] + y;
    NoDupConcat(x + [t], y);
    ElemsConcat(x + [t], y);
    ElemsConcat(x, [t]);
    ElemsConcat(x, y);
    ElemsConcat(x + y, [t]);
    ElemsOne(t);
    forall z | z in y ensures t !in g.Anc(z) {
      assert z in Elems(y) && z in g.used && t in Elems(x + [t]);
      assert t in g.Anc(z) ==> z in g.Desc(t);
    }
    ApartNotDepending(g, y, t);
    assert lin == x + ([t] + (y + [])) && x + y + [t] == x + (y + ([t] + []));
    SwapTopological(g, [t], y, x, []);
  }

  /** Post-linearizing with a leaf moved to the end is at least as good as the order before. */
  lemma LeafMoved(g: Cluster, x: seq<nat>, t: nat, y: seq<nat>)
    requires g.Valid() && Linearizes(g, g.used, x + [t] + y) && g.Desc(t) == {t}
    ensures Linearizes(g, g.used, x + y + [t]) && Linearizes(g, g.used, PostLinearized(g, x + y + [t]))
    ensures Dominates(g, PostLinearized(g, x + y + [t]), x + [t] + y)
  {
    hide Dominates, Topological, Groups, Cluster.Valid;
    var h, before, moved := ReversedGraph(g), x + [t] + y, x + y + [t];
    LeafLast(g, x, t, y);
    ReversedParts(x, t, y);
    SizedBackwards(g, moved);
    ReversedOrder(g, before);
    ReversedOrder(g, moved);
    FirstMoved(h, t, Reversed(y), Reversed(x));
    BackwardPass(g, moved);
    var second := Pass(g, true, moved);
    ReversedElems(Flatten(Groups(h, Reversed(moved))));
    SameTotal(g, second, before);
    ReversedDominates(g, second, before);
    ForwardPass(g, second);
    DominatesTrans(g, PostLinearized(g, moved), second, before);
  }

  lemma SameTotal(g: Cluster, a: seq<nat>, b: seq<nat>)
    requires Linearizes(g, g.used, a) && Linearizes(g, g.used, b)
    ensures SeqRate(g, a) == SeqRate(g, b)
  {
    SameRate(g, a, b);
  }

  lemma ReversedOrder(g: Cluster, lin: seq<nat>)
    requires g.Valid() && Linearizes(g, g.used, lin)
    ensures Topological(ReversedGraph(g), Reversed(lin))
  {
    ReversedTopological(g, lin);
  }

  lemma SizedBackwards(g: Cluster, lin: seq<nat>)
    requires g.Valid() && Linearizes(g, g.used, lin)
    ensures SizedSeq(ReversedGraph(g), Reversed(lin))
  {
    ReversedValid(g);
    ReversedElems(lin);
    AllSized(ReversedGraph(g), Reversed(lin));
  }

  lemma ReversedParts(x: seq<nat>, t: nat, y: seq<nat>)
    ensures Reversed(x + y + [t]) == [t] + Reversed(y) + Reversed(x)
    ensures Reversed(x + [t] + y) == Reversed(y) + ([t] + Reversed(x))
  {
    ReversedConcat(x + y, [t]);
    ReversedConcat(x, y);
    ReversedConcat(x + [t], y);
    ReversedConcat(x, [t]);
    assert Reversed([t]) == [t];
  }

  // ----- and raising its fee

  /** The cluster with another fee for one transaction. */
  function Repriced(g: Cluster, t: nat, fee: int): Cluster {
    if t < |g.entries| then g.(entries := g.entries[t := g.entries[t].(feerate := FeeFrac(fee, g.entries[t].feerate.size))]) else g
  }

  lemma RepricedValid(g: Cluster, t: nat, fee: int)
    requires g.Valid()
    ensures Repriced(g, t, fee).Valid() && forall i :: Repriced(g, t, fee).Anc(i) == g.Anc(i) && Repriced(g, t, fee).Desc(i) == g.Desc(i)
  {
    var h := Repriced(g, t, fee);
    forall i ensures h.Anc(i) == g.Anc(i) && h.Desc(i) == g.Desc(i) {
    }
    assert forall i | i in g.used :: h.Rate(i).size == g.Rate(i).size;
  }

  lemma {:induction false} RepricedRate(g: Cluster, t: nat, fee: int, s: seq<nat>)
    requires fee >= g.Rate(t).fee
    ensures SeqRate(Repriced(g, t, fee), s).size == SeqRate(g, s).size && SeqRate(Repriced(g, t, fee), s).fee >= SeqRate(g, s).fee
  {
    if s != [] {
      RepricedRate(g, t, fee, s[1..]);
    }
  }

  lemma MoreFee(rate: FeeFrac, a: FeeFrac, b: FeeFrac)
    requires rate.size > 0 && a.size == b.size && a.fee >= b.fee
    ensures Excess(rate, a) >= Excess(rate, b)
  {
    assert a.fee * rate.size >= b.fee * rate.size;
  }

  /** An order of the repriced cluster that dominates another improves on that one as it was. */
  lemma ImprovesOnOld(g: Cluster, t: nat, fee: int, a: seq<nat>, b: seq<nat>)
    requires fee >= g.Rate(t).fee && Dominates(Repriced(g, t, fee), a, b)
    ensures Improves(Repriced(g, t, fee), a, g, b)
  {
    hide SeqRate, Excess, Repriced;
    var h := Repriced(g, t, fee);
    forall rate: FeeFrac, j: nat | rate.size > 0 && j <= |b| ensures Reaches(h, rate, a, Excess(rate, SeqRate(g, b[..j]))) {
      RepricedRate(g, t, fee, b[..j]);
      MoreFee(rate, SeqRate(h, b[..j]), SeqRate(g, b[..j]));
      var i := DominatesAt(h, a, b, rate, j);
      ReachesAt(h, rate, a, i, Excess(rate, SeqRate(g, b[..j])));
    }
  }

  /** Dropping a transaction without children, appending one of the same size that pays at least as much, and
      post-linearizing: the feerate diagram is nowhere below the one before. */
  lemma ReplacedLeaf(g: Cluster, x: seq<nat>, t: nat, y: seq<nat>, fee: int)
    requires g.Valid() && Linearizes(g, g.used, x + [t] + y) && g.Desc(t) == {t} && fee >= g.Rate(t).fee
    ensures var h := Repriced(g, t, fee);
            var out := PostLinearized(h, x + y + [t]);
            && Linearizes(h, h.used, out) && SizedSeq(h, out) && SizedSeq(g, x + [t] + y)
            && forall size: real | size >= 0.0 :: Diagram(h, out, size) >= Diagram(g, x + [t] + y, size)
  {
    hide Dominates, Improves, Cluster.Valid, PostLinearized, Diagram;
    var h, lin := Repriced(g, t, fee), x + [t] + y;
    RepricedValid(g, t, fee);
    assert h.used == g.used;
    LeafMoved(h, x, t, y);
    var out := PostLinearized(h, x + y + [t]);
    ImprovesOnOld(g, t, fee, out, lin);
    SameTotal(h, out, lin);
    RepricedRate(g, t, fee, lin);
    InOrderSized(g, lin);
    InOrderSized(h, out);
    forall size: real | size >= 0.0 ensures Diagram(h, out, size) >= Diagram(g, lin, size) {
      ImprovesThenAbove(h, out, g, lin, size);
    }
  }

  lemma InOrderSized(g: Cluster, lin: seq<nat>)
    requires g.Valid() && Linearizes(g, g.used, lin)
    ensures SizedSeq(g, lin)
  {
    AllSized(g, lin);
  }
}
