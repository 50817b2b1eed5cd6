/** What one pass of PostLinearize does (src/cluster_linearize.h), on a list of groups: every
    transaction starts as a group of its own at the back, and moves forward by merging with or
    swapping past groups of lower feerate. */
module PostGroups {
  import opened FeeFracs
  import opened Positions
  import opened Clusters
  import opened Chunkings
  import opened Diagrams
  import opened DepGraphs

  /** Some transaction of `c` has an ancestor in `p`. */
  predicate DependsOn(g: Cluster, c: seq<nat>, p: seq<nat>) {
    exists x | x in c :: g.Anc(x) * Elems(p) != {}
  }

  /** Move group `cur` forward past or into the groups `before` it; `after` are those already passed. */
  function Settle(g: Cluster, before: seq<seq<nat>>, cur: seq<nat>, after: seq<seq<nat>>): seq<seq<nat>>
    decreases |before|
  {
    if before != [] && SeqRate(g, cur).Higher(SeqRate(g, before[|before| - 1])) then
      var init, last := before[..|before| - 1], before[|before| - 1];
      if DependsOn(g, cur, last) then Settle(g, init, last + cur, after)
      else Settle(g, init, cur, [last] + after)
    else
      before + [cur] + after
  }

  /** The groups after processing all of `lin`. */
  function Groups(g: Cluster, lin: seq<nat>): seq<seq<nat>> {
    if lin == [] then []
    else Settle(g, Groups(g, lin[..|lin| - 1]), [lin[|lin| - 1]], [])
  }

  ghost predicate AllConnected(g: Cluster, cs: seq<seq<nat>>) {
    forall k | 0 <= k < |cs| :: Connected(g, Elems(cs[k]))
  }

  /** Groups that are the chunks of the order they form, and are connected. */
  ghost predicate GoodGroups(g: Cluster, cs: seq<seq<nat>>) {
    AllTight(g, cs) && Descending(g, cs) && AllConnected(g, cs)
  }

  /** The state while a group is moving forward. */
  ghost predicate Settling(g: Cluster, before: seq<seq<nat>>, cur: seq<nat>, after: seq<seq<nat>>) {
    && GoodGroups(g, before + after) && Tight(g, cur) && Connected(g, Elems(cur))
    && (after != [] ==> SeqRate(g, cur).Higher(SeqRate(g, after[0])))
  }

  function Order(before: seq<seq<nat>>, cur: seq<nat>, after: seq<seq<nat>>): seq<nat> {
    Flatten(before) + cur + Flatten(after)
  }

  // ----- swapping

  /** Swapping a group of a feerate that is not lower to the front does not make the order worse. */
  lemma SwapDominates(g: Cluster, p: seq<nat>, c: seq<nat>, y: seq<nat>)
    requires Tight(g, p) && Tight(g, c) && SizedSeq(g, p + c) && !SeqRate(g, p).Higher(SeqRate(g, c))
    ensures Dominates(g, c + p + y, p + c + y)
  {
    hide SeqRate, Excess, Tight, SizedSeq, Reaches;
    forall rate: FeeFrac, j: nat | rate.size > 0 && j <= |p + c + y|
      ensures Reaches(g, rate, c + p + y, Excess(rate, SeqRate(g, (p + c + y)[..j])))
    {
      if j <= |p| {
        SwapFirst(g, p, c, y, rate, j);
      } else if j < |p| + |c| {
        SwapSecond(g, p, c, y, rate, j - |p|);
      } else {
        SwapRest(g, p, c, y, rate, j - |p| - |c|);
      }
    }
  }

  lemma BothExcess(g: Cluster, p: seq<nat>, c: seq<nat>, y: seq<nat>, rate: FeeFrac)
    ensures (c + p + y)[..|c| + |p|] == c + p
    ensures Excess(rate, SeqRate(g, c + p)) == Excess(rate, SeqRate(g, c)) + Excess(rate, SeqRate(g, p))
  {
    hide SeqRate, Excess;
    SeqRateConcat(g, c, p);
    ExcessPlus(rate, SeqRate(g, c), SeqRate(g, p));
  }

  /** If one group gains over some rate, so does a group of a feerate that is not lower. */
  lemma HigherGains(g: Cluster, p: seq<nat>, c: seq<nat>, rate: FeeFrac)
    requires Tight(g, p) && Tight(g, c) && SizedSeq(g, p + c) && !SeqRate(g, p).Higher(SeqRate(g, c))
    requires rate.size > 0 && Excess(rate, SeqRate(g, p)) > 0
    ensures Excess(rate, SeqRate(g, c)) > 0
  {
    SeqRatePositive(g, p);
    SeqRatePositive(g, c);
    ExcessSwap(SeqRate(g, p), SeqRate(g, c));
    ExcessTransitive(rate, SeqRate(g, p), SeqRate(g, c));
  }

  lemma SwapFirst(g: Cluster, p: seq<nat>, c: seq<nat>, y: seq<nat>, rate: FeeFrac, j: nat)
    requires Tight(g, p) && Tight(g, c) && SizedSeq(g, p + c) && !SeqRate(g, p).Higher(SeqRate(g, c))
    requires rate.size > 0 && j <= |p|
    ensures Reaches(g, rate, c + p + y, Excess(rate, SeqRate(g, (p + c + y)[..j])))
  {
    var q, new_ := p[..j], c + p + y;
    assert (p + c + y)[..j] == q;
    var v := Excess(rate, SeqRate(g, q));
    if v <= 0 {
      assert new_[..0] == [];
      ReachesAt(g, rate, new_, 0, v);
    } else {
      PrefixGains(g, p, j, rate);
      HigherGains(g, p, c, rate);
      BothExcess(g, p, c, y, rate);
      ReachesAt(g, rate, new_, |c| + |p|, v);
    }
  }

  lemma PrefixGains(g: Cluster, p: seq<nat>, j: nat, rate: FeeFrac)
    requires Tight(g, p) && SizedSeq(g, p) && rate.size > 0 && j <= |p|
    requires Excess(rate, SeqRate(g, p[..j])) > 0
    ensures Excess(rate, SeqRate(g, p)) >= Excess(rate, SeqRate(g, p[..j]))
  {
    if j == |p| {
      assert p[..j] == p;
    } else if j > 0 {
      var Q, P := SeqRate(g, p[..j]), SeqRate(g, p);
      SeqRatePositive(g, p[..j]);
      SeqRatePositive(g, p);
      ExcessSwap(P, Q);
      ExcessTransitive(rate, Q, P);
      SuffixAbove(g, p, j, rate);
    }
  }

  lemma SwapSecond(g: Cluster, p: seq<nat>, c: seq<nat>, y: seq<nat>, rate: FeeFrac, j: nat)
    requires Tight(g, p) && Tight(g, c) && SizedSeq(g, p + c) && !SeqRate(g, p).Higher(SeqRate(g, c))
    requires rate.size > 0 && 0 < j < |c|
    ensures Reaches(g, rate, c + p + y, Excess(rate, SeqRate(g, (p + c + y)[..|p| + j])))
  {
    var q, new_ := c[..j], c + p + y;
    assert (p + c + y)[..|p| + j] == p + q;
    SeqRateConcat(g, p, q);
    ExcessPlus(rate, SeqRate(g, p), SeqRate(g, q));
    var v := Excess(rate, SeqRate(g, p + q));
    if Excess(rate, SeqRate(g, p)) <= 0 {
      assert new_[..j] == q;
      ReachesAt(g, rate, new_, j, v);
    } else {
      HigherGains(g, p, c, rate);
      SuffixAbove(g, c, j, rate);
      BothExcess(g, p, c, y, rate);
      ReachesAt(g, rate, new_, |c| + |p|, v);
    }
  }

  lemma SwapRest(g: Cluster, p: seq<nat>, c: seq<nat>, y: seq<nat>, rate: FeeFrac, j: nat)
    requires j <= |y|
    ensures Reaches(g, rate, c + p + y, Excess(rate, SeqRate(g, (p + c + y)[..|p| + |c| + j])))
  {
    hide SeqRate, Excess, Reaches;
    var z, new_ := y[..j], c + p + y;
    assert (p + c + y)[..|p| + |c| + j] == p + c + z;
    assert new_[..|c| + |p| + j] == c + p + z;
    SeqRateConcat(g, p, c);
    SeqRateConcat(g, c, p);
    SeqRateConcat(g, p + c, z);
    SeqRateConcat(g, c + p, z);
    PlusLaws(SeqRate(g, p), SeqRate(g, c), EMPTY);
    ReachesAt(g, rate, new_, |c| + |p| + j, Excess(rate, SeqRate(g, p + c + z)));
  }

  /** Swapping groups without a dependency between them keeps the order topological. */
  lemma SwapTopological(g: Cluster, p: seq<nat>, c: seq<nat>, x: seq<nat>, y: seq<nat>)
    requires Topological(g, x + (p + (c + y))) && !DependsOn(g, c, p)
    ensures Topological(g, x + (c + (p + y)))
  {
    var py, cy := p + y, c + y;
    PrefixClosed(g, x, p + cy);
    PrefixClosed(g, p, cy);
    PrefixClosed(g, c, y);
    NoDupConcat(x, p + cy);
    NoDupConcat(p, cy);
    NoDupConcat(c, y);
    ElemsConcat(p, cy);
    ElemsConcat(c, y);
    ElemsConcat(p, y);
    ElemsConcat(c, py);
    ElemsConcat(x, p + cy);
    NotBefore(g, x, p, c, y);
  }

  lemma NotBefore(g: Cluster, x: seq<nat>, p: seq<nat>, c: seq<nat>, y: seq<nat>)
    requires Topological(g, p) && Topological(g, c) && Topological(g, y) && Topological(g, x)
    requires Elems(x) !! Elems(p) !! Elems(c) !! Elems(y)
    requires Closed(g, Elems(x) + Elems(p) + Elems(c) + Elems(y), Elems(x))
    requires Closed(g, Elems(p) + Elems(c) + Elems(y), Elems(p))
    requires Closed(g, Elems(c) + Elems(y), Elems(c)) && !DependsOn(g, c, p)
    ensures Topological(g, x + (c + (p + y)))
  {
    forall i, j | i in Elems(c) && j in g.Anc(i) ensures j !in Elems(p) {
      assert i in c && g.Anc(i) * Elems(p) == {};
      assert j in Elems(p) ==> j in g.Anc(i) * Elems(p);
    }
    TopologicalConcat(g, p, y);
    ElemsConcat(p, y);
    TopologicalConcat(g, c, p + y);
    ElemsConcat(c, p + y);
    TopologicalConcat(g, x, c + (p + y));
  }

  // ----- merging

  lemma ConnectedUnion(g: Cluster, a: set<nat>, b: set<nat>, x: nat, y: nat)
    requires Connected(g, a) && Connected(g, b) && x in a && y in b && Related(g, x, y)
    ensures Connected(g, a + b)
  {
    forall part | part <= a + b && part != {} && Separated(g, a + b, part) ensures part == a + b {
      assert Separated(g, a, part * a) && Separated(g, b, part * b);
      assert part == part * a + part * b;
      assert Related(g, y, x);
      assert part * a == {} || part * a == a;
      assert part * b == {} || part * b == b;
    }
  }

  lemma ConnectedOne(g: Cluster, x: nat)
    ensures Connected(g, {x})
  {
  }

  lemma MergedConnected(g: Cluster, p: seq<nat>, c: seq<nat>)
    requires DependsOn(g, c, p) && Connected(g, Elems(p)) && Connected(g, Elems(c))
    ensures Connected(g, Elems(p + c))
  {
    var x :| x in c && g.Anc(x) * Elems(p) != {};
    var a :| a in g.Anc(x) * Elems(p);
    assert Related(g, a, x);
    ConnectedUnion(g, Elems(p), Elems(c), a, x);
    ElemsConcat(p, c);
  }

  // ----- one step of a moving group

  lemma LastGroup(g: Cluster, before: seq<seq<nat>>, cur: seq<nat>, after: seq<seq<nat>>)
    requires Settling(g, before, cur, after) && before != []
    ensures Tight(g, before[|before| - 1]) && Connected(g, Elems(before[|before| - 1]))
    ensures after != [] ==> !SeqRate(g, after[0]).Higher(SeqRate(g, before[|before| - 1]))
  {
    var all, n := before + after, |before| - 1;
    assert all[n] == before[n];
    if after != [] {
      assert all[n + 1] == after[0];
    }
  }

  /** Dropping a group from a descending list leaves it descending. */
  lemma DropGroup(g: Cluster, init: seq<seq<nat>>, last: seq<nat>, after: seq<seq<nat>>)
    requires GoodGroups(g, init + [last] + after)
    requires forall k | 0 <= k < |init + [last] + after| :: SeqRate(g, (init + [last] + after)[k]).size > 0
    ensures GoodGroups(g, init + after)
  {
    var all, less := init + [last] + after, init + after;
    var n := |init|;
    assert forall k | 0 <= k < n :: less[k] == all[k];
    assert forall k | n <= k < |less| :: less[k] == all[k + 1];
    forall k | 0 < k < |less| ensures !SeqRate(g, less[k]).Higher(SeqRate(g, less[k - 1])) {
      if k == n {
        var a, b, c := SeqRate(g, all[n - 1]), SeqRate(g, all[n]), SeqRate(g, all[n + 1]);
        assert !b.Higher(a) && !c.Higher(b);
        NotHigherTransitive(a, b, c);
      }
    }
  }

  lemma NotHigherTransitive(a: FeeFrac, b: FeeFrac, c: FeeFrac)
    requires a.size > 0 && b.size > 0 && c.size > 0 && !b.Higher(a) && !c.Higher(b)
    ensures !c.Higher(a)
  {
    ExcessSwap(b, a);
    ExcessSwap(c, b);
    ExcessSwap(c, a);
    ExcessSwap(a, b);
    ExcessSwap(a, c);
    ExcessTransitive(c, b, a);
  }

  lemma {:induction false} FlattenSized(g: Cluster, cs: seq<seq<nat>>)
    requires AllTight(g, cs) && SizedSeq(g, Flatten(cs))
    ensures forall k | 0 <= k < |cs| :: SeqRate(g, cs[k]).size > 0
  {
    forall k | 0 <= k < |cs| ensures SeqRate(g, cs[k]).size > 0 {
      ChunkInside(cs, k);
      SeqRatePositive(g, cs[k]);
    }
  }

  lemma OrderSized(g: Cluster, before: seq<seq<nat>>, cur: seq<nat>, after: seq<seq<nat>>)
    requires SizedSeq(g, Order(before, cur, after))
    ensures SizedSeq(g, Flatten(before + after)) && SizedSeq(g, cur)
  {
    FlattenConcat(before, after);
    ConcatSized(g, Flatten(before), cur, Flatten(after));
  }

  lemma ConcatSized(g: Cluster, a: seq<nat>, c: seq<nat>, b: seq<nat>)
    requires SizedSeq(g, a + c + b)
    ensures SizedSeq(g, a + b) && SizedSeq(g, c)
  {
    forall i | i in a + b || i in c ensures i in a + c + b {
    }
  }

  lemma MergeStep(g: Cluster, init: seq<seq<nat>>, last: seq<nat>, cur: seq<nat>, after: seq<seq<nat>>)
    requires Settling(g, init + [last], cur, after) && SizedSeq(g, Order(init + [last], cur, after))
    requires SeqRate(g, cur).Higher(SeqRate(g, last)) && DependsOn(g, cur, last)
    ensures Settling(g, init, last + cur, after)
    ensures Order(init, last + cur, after) == Order(init + [last], cur, after)
  {
    LastGroup(g, init + [last], cur, after);
    OrderSized(g, init + [last], cur, after);
    FlattenSized(g, init + [last] + after);
    DropGroup(g, init, last, after);
    MergedOrder(init, last, cur, after);
    LastInside(init, last, after);
    assert after != [] ==> (init + [last] + after)[|init| + 1] == after[0];
    MergedGroup(g, last, cur, after);
  }

  lemma MergedOrder(init: seq<seq<nat>>, last: seq<nat>, cur: seq<nat>, after: seq<seq<nat>>)
    ensures Order(init, last + cur, after) == Order(init + [last], cur, after)
  {
    FlattenConcat(init, [last]);
    FlattenOne(last);
  }

  lemma SwappedOrder(init: seq<seq<nat>>, last: seq<nat>, cur: seq<nat>, after: seq<seq<nat>>, rest: seq<nat>)
    ensures var x, y := Flatten(init), Flatten(after) + rest;
            && Order(init + [last], cur, after) + rest == x + (last + (cur + y))
            && Order(init, cur, [last] + after) + rest == x + (cur + (last + y))
    ensures Elems(Order(init, cur, [last] + after)) == Elems(Order(init + [last], cur, after))
  {
    FlattenConcat(init, [last]);
    FlattenConcat([last], after);
    FlattenOne(last);
    Regroup(Flatten(init), last, cur, Flatten(after), rest);
    SwappedElems(Flatten(init), last, cur, Flatten(after));
  }

  lemma Regroup(x: seq<nat>, p: seq<nat>, c: seq<nat>, y: seq<nat>, rest: seq<nat>)
    ensures x + p + c + y + rest == x + (p + (c + (y + rest)))
    ensures x + c + (p + y) + rest == x + (c + (p + (y + rest)))
  {
  }

  lemma SwappedElems(x: seq<nat>, p: seq<nat>, c: seq<nat>, y: seq<nat>)
    ensures Elems(x + c + (p + y)) == Elems(x + p + c + y)
  {
    ElemsConcat(x + c, p + y);
    ElemsConcat(x, c);
    ElemsConcat(p, y);
    ElemsConcat(x + p + c, y);
    ElemsConcat(x + p, c);
    ElemsConcat(x, p);
  }

  lemma LastInside(init: seq<seq<nat>>, last: seq<nat>, after: seq<seq<nat>>)
    ensures forall x | x in last :: x in Flatten(init + [last] + after)
  {
    assert (init + [last] + after)[|init|] == last;
    ChunkInside(init + [last] + after, |init|);
  }

  lemma MergedGroup(g: Cluster, last: seq<nat>, cur: seq<nat>, after: seq<seq<nat>>)
    requires Tight(g, last) && Tight(g, cur) && SizedSeq(g, last) && SizedSeq(g, cur)
    requires Connected(g, Elems(last)) && Connected(g, Elems(cur)) && DependsOn(g, cur, last)
    requires SeqRate(g, cur).Higher(SeqRate(g, last))
    requires after != [] ==> SeqRate(g, after[0]).size > 0 && !SeqRate(g, after[0]).Higher(SeqRate(g, last))
    ensures Tight(g, last + cur) && Connected(g, Elems(last + cur))
    ensures after != [] ==> SeqRate(g, last + cur).Higher(SeqRate(g, after[0]))
  {
    TightConcat(g, last, cur);
    MergedConnected(g, last, cur);
    if after != [] {
      var L, C, A := SeqRate(g, last), SeqRate(g, cur), SeqRate(g, after[0]);
      SeqRateConcat(g, last, cur);
      SeqRatePositive(g, last);
      SeqRatePositive(g, cur);
      ExcessSwap(C, L);
      Mediant(L, C);
      ExcessSwap(A, L);
      ExcessSwap(L, A);
      ExcessSwap(L.Plus(C), A);
      ExcessTransitive(A, L, L.Plus(C));
    }
  }

  lemma NotLower(c: FeeFrac, p: FeeFrac)
    requires c.Higher(p)
    ensures !p.Higher(c)
  {
    ExcessSwap(c, p);
    ExcessSwap(p, c);
  }

  lemma SwapStep(g: Cluster, init: seq<seq<nat>>, last: seq<nat>, cur: seq<nat>, after: seq<seq<nat>>)
    requires Settling(g, init + [last], cur, after)
    requires SeqRate(g, cur).Higher(SeqRate(g, last))
    ensures Settling(g, init, cur, [last] + after)
  {
    assert init + ([last] + after) == init + [last] + after;
  }

  /** The order before and after swapping. */
  lemma SwapOrder(g: Cluster, init: seq<seq<nat>>, last: seq<nat>, cur: seq<nat>, after: seq<seq<nat>>, rest: seq<nat>)
    requires Settling(g, init + [last], cur, after) && SizedSeq(g, Order(init + [last], cur, after))
    requires SeqRate(g, cur).Higher(SeqRate(g, last)) && !DependsOn(g, cur, last)
    requires Topological(g, Order(init + [last], cur, after) + rest)
    ensures Topological(g, Order(init, cur, [last] + after) + rest)
    ensures Dominates(g, Order(init, cur, [last] + after) + rest, Order(init + [last], cur, after) + rest)
    ensures Elems(Order(init, cur, [last] + after)) == Elems(Order(init + [last], cur, after))
  {
    hide SeqRate, Excess, Topological, Dominates, Tight, Connected, GoodGroups, DependsOn, Order, Flatten;
    var x, y := Flatten(init), Flatten(after) + rest;
    SwappedOrder(init, last, cur, after, rest);
    SwapTopological(g, last, cur, x, y);
    LastGroup(g, init + [last], cur, after);
    OrderSized(g, init + [last], cur, after);
    LastInside(init, last, after);
    NotLower(SeqRate(g, cur), SeqRate(g, last));
    SwapDominates(g, last, cur, y);
    assert last + cur + y == last + (cur + y) && cur + last + y == cur + (last + y);
    DominatesAppend(g, x, cur + (last + y), last + (cur + y));
  }

  /** What moving a group does to the whole order. */
  ghost predicate Settled(g: Cluster, old_: seq<nat>, r: seq<seq<nat>>, rest: seq<nat>) {
    && GoodGroups(g, r) && Elems(Flatten(r)) == Elems(old_)
    && Topological(g, Flatten(r) + rest) && Dominates(g, Flatten(r) + rest, old_ + rest)
  }

  lemma {:induction false} SettleWorks(g: Cluster, before: seq<seq<nat>>, cur: seq<nat>, after: seq<seq<nat>>, rest: seq<nat>)
    requires Settling(g, before, cur, after) && SizedSeq(g, Order(before, cur, after))
    requires Topological(g, Order(before, cur, after) + rest)
    ensures Settled(g, Order(before, cur, after), Settle(g, before, cur, after), rest)
    decreases |before|
  {
    if before != [] && SeqRate(g, cur).Higher(SeqRate(g, before[|before| - 1])) {
      var init, last := before[..|before| - 1], before[|before| - 1];
      assert before == init + [last];
      if DependsOn(g, cur, last) {
        MergeStep(g, init, last, cur, after);
        SettleWorks(g, init, last + cur, after, rest);
      } else {
        SwapStep(g, init, last, cur, after);
        SwapOrder(g, init, last, cur, after, rest);
        var new_ := Order(init, cur, [last] + after);
        assert SizedSeq(g, new_) by {
          forall i | i in new_ ensures g.Rate(i).size > 0 { assert i in Elems(new_); }
        }
        SettleWorks(g, init, cur, [last] + after, rest);
        var r := Settle(g, init, cur, [last] + after);
        DominatesTrans(g, Flatten(r) + rest, new_ + rest, Order(before, cur, after) + rest);
      }
    } else {
      SettledInPlace(g, before, cur, after);
      FlattenMiddle(before, cur, after);
      DominatesRefl(g, Order(before, cur, after) + rest);
    }
  }

  lemma SettledInPlace(g: Cluster, before: seq<seq<nat>>, cur: seq<nat>, after: seq<seq<nat>>)
    requires Settling(g, before, cur, after)
    requires before == [] || !SeqRate(g, cur).Higher(SeqRate(g, before[|before| - 1]))
    ensures GoodGroups(g, before + [cur] + after)
  {
    var r := before + [cur] + after;
    forall k | 0 <= k < |r| ensures Tight(g, r[k]) && Connected(g, Elems(r[k])) {
      GroupInPlace(g, before, cur, after, k);
    }
    forall k | 0 < k < |r| ensures !SeqRate(g, r[k]).Higher(SeqRate(g, r[k - 1])) {
      RatesInPlace(g, before, cur, after, k);
    }
  }

  lemma GroupInPlace(g: Cluster, before: seq<seq<nat>>, cur: seq<nat>, after: seq<seq<nat>>, k: nat)
    requires Settling(g, before, cur, after) && k < |before| + 1 + |after|
    ensures Tight(g, (before + [cur] + after)[k]) && Connected(g, Elems((before + [cur] + after)[k]))
  {
    var all := before + after;
    if k != |before| {
      var c := all[if k < |before| then k else k - 1];
      assert (before + [cur] + after)[k] == c;
      assert Tight(g, c) && Connected(g, Elems(c));
    }
  }

  lemma RatesInPlace(g: Cluster, before: seq<seq<nat>>, cur: seq<nat>, after: seq<seq<nat>>, k: nat)
    requires Settling(g, before, cur, after) && 0 < k < |before| + 1 + |after|
    requires before == [] || !SeqRate(g, cur).Higher(SeqRate(g, before[|before| - 1]))
    ensures !SeqRate(g, (before + [cur] + after)[k]).Higher(SeqRate(g, (before + [cur] + after)[k - 1]))
  {
    hide SeqRate, Tight, Connected, Elems;
    var r, all, n := before + [cur] + after, before + after, |before|;
    if k < n {
      assert r[k] == all[k] && r[k - 1] == all[k - 1];
    } else if k == n {
      assert r[k] == cur && r[k - 1] == before[n - 1];
    } else if k == n + 1 {
      assert r[k] == after[0] && r[k - 1] == cur;
      ExcessSwap(SeqRate(g, cur), SeqRate(g, after[0]));
      ExcessSwap(SeqRate(g, after[0]), SeqRate(g, cur));
    } else {
      assert r[k] == all[k - 1] && r[k - 1] == all[k - 2];
    }
  }

  /** One pass: the groups are the chunks of the order they form; that order is topologically valid and
      at least as good as the one started from. */
  lemma {:induction false} PassWorks(g: Cluster, lin: seq<nat>, rest: seq<nat>)
    requires Topological(g, lin + rest) && SizedSeq(g, lin)
    ensures Settled(g, lin, Groups(g, lin), rest)
  {
    if lin == [] {
      DominatesRefl(g, rest);
      assert [] + rest == rest;
    } else {
      var n := |lin| - 1;
      var init, x := lin[..n], lin[n];
      assert lin == init + [x] && lin + rest == init + ([x] + rest);
      PassWorks(g, init, [x] + rest);
      var cs := Groups(g, init);
      assert Flatten(cs) + [x] + [] == Order(cs, [x], []);
      assert Order(cs, [x], []) + rest == Flatten(cs) + ([x] + rest);
      StartGroup(g, cs, init, x);
      SettleWorks(g, cs, [x], [], rest);
      ElemsConcat(init, [x]);
      ElemsConcat(Flatten(cs), [x]);
      DominatesTrans(g, Flatten(Groups(g, lin)) + rest, Order(cs, [x], []) + rest, lin + rest);
    }
  }

  lemma StartGroup(g: Cluster, cs: seq<seq<nat>>, init: seq<nat>, x: nat)
    requires GoodGroups(g, cs) && Elems(Flatten(cs)) == Elems(init) && SizedSeq(g, init + [x])
    ensures Settling(g, cs, [x], []) && SizedSeq(g, Order(cs, [x], []))
  {
    ElemsOne(x);
    ConnectedOne(g, x);
    assert cs + [] == cs;
    forall i | i in Order(cs, [x], []) ensures i in init + [x] {
      if i in Flatten(cs) {
        assert i in Elems(init);
      }
    }
  }

  // ----- nothing is lost or duplicated

  lemma {:induction false} SettlePermutes(g: Cluster, before: seq<seq<nat>>, cur: seq<nat>, after: seq<seq<nat>>)
    ensures multiset(Flatten(Settle(g, before, cur, after))) == multiset(Order(before, cur, after))
    decreases |before|
  {
    if before != [] && SeqRate(g, cur).Higher(SeqRate(g, before[|before| - 1])) {
      var init, last := before[..|before| - 1], before[|before| - 1];
      assert before == init + [last];
      if DependsOn(g, cur, last) {
        MergedOrder(init, last, cur, after);
        SettlePermutes(g, init, last + cur, after);
      } else {
        SettlePermutes(g, init, cur, [last] + after);
        SwappedPermutes(init, last, cur, after);
      }
    } else {
      FlattenMiddle(before, cur, after);
    }
  }

  lemma FlattenMiddle(before: seq<seq<nat>>, cur: seq<nat>, after: seq<seq<nat>>)
    ensures Flatten(before + [cur] + after) == Order(before, cur, after)
  {
    FlattenConcat(before + [cur], after);
    FlattenConcat(before, [cur]);
    FlattenOne(cur);
  }

  lemma SwappedPermutes(init: seq<seq<nat>>, last: seq<nat>, cur: seq<nat>, after: seq<seq<nat>>)
    ensures multiset(Order(init, cur, [last] + after)) == multiset(Order(init + [last], cur, after))
  {
    FlattenConcat(init, [last]);
    FlattenConcat([last], after);
    FlattenOne(last);
    MultisetSwap(Flatten(init), last, cur, Flatten(after));
  }

  lemma MultisetSwap(x: seq<nat>, p: seq<nat>, c: seq<nat>, y: seq<nat>)
    ensures multiset(x + c + (p + y)) == multiset(x + p + c + y)
  {
  }

  lemma {:induction false} GroupsPermute(g: Cluster, lin: seq<nat>)
    ensures multiset(Flatten(Groups(g, lin))) == multiset(lin)
  {
    if lin != [] {
      var n := |lin| - 1;
      var init, x := lin[..n], lin[n];
      assert lin == init + [x];
      GroupsPermute(g, init);
      SettlePermutes(g, Groups(g, init), [x], []);
      OneMore(Flatten(Groups(g, init)), x, Order(Groups(g, init), [x], []));
    }
  }

  lemma OneMore(s: seq<nat>, x: nat, t: seq<nat>)
    requires t == s + [x] + []
    ensures multiset(t) == multiset(s) + multiset{x}
  {
    assert t == s + [x];
  }
}
