/** What a pass of PostLinearize (src/cluster_linearize.h) does to a cluster in which every transaction has at most
    one child: the result is at least as good as every topologically valid order. */
module PostTrees {
  import opened FeeFracs
  import opened Positions
  import opened Clusters
  import opened Chunkings
  import opened Diagrams
  import opened DepGraphs
  import opened PostGroups

  // ----- the shape

  /** A parent and a child: nothing lies between them. */
  ghost predicate IsChild(g: Cluster, p: nat, c: nat) {
    && p in g.used && c in g.used && p != c && p in g.Anc(c)
    && forall m | m in g.Anc(c) && p in g.Anc(m) :: m == p || m == c
  }

  ghost predicate AtMostOneChild(g: Cluster) {
    forall p, c, d | IsChild(g, p, c) && IsChild(g, p, d) :: c == d
  }

  ghost predicate AtMostOneParent(g: Cluster) {
    forall p, q, c | IsChild(g, p, c) && IsChild(g, q, c) :: p == q
  }

  /** The parents are those that `GetReducedParents` finds. */
  lemma ReducedParents(g: Cluster, p: nat, c: nat)
    requires g.Valid() && p in g.used && c in g.used
    ensures IsChild(g, p, c) <==> p in MaximalStrictAncestors(g, c)
  {
  }

  /** Below an ancestor there is a child of it. */
  lemma {:induction false} ChildTowards(g: Cluster, p: nat, y: nat) returns (c: nat)
    requires g.Valid() && p in g.used && y in g.used && p in g.Anc(y) && p != y
    ensures IsChild(g, p, c) && c in g.Anc(y)
    decreases |g.Anc(y)|
  {
    if IsChild(g, p, y) {
      c := y;
    } else {
      var m :| m in g.Anc(y) && p in g.Anc(m) && m != p && m != y;
      assert g.Anc(m) <= g.Anc(y) && y !in g.Anc(m);
      Smaller(g.Anc(m), g.Anc(y), y);
      c := ChildTowards(g, p, m);
    }
  }

  lemma Smaller(a: set<nat>, b: set<nat>, x: nat)
    requires a <= b && x in b && x !in a
    ensures |a| < |b|
  {
    assert a <= b - {x};
    Subset(a, b - {x});
  }

  lemma {:induction false} Subset(a: set<nat>, b: set<nat>)
    requires a <= b
    ensures |a| <= |b|
  {
    if a != {} {
      var x :| x in a;
      Subset(a - {x}, b - {x});
    }
  }

  /** With at most one child each, the descendants of a transaction form a chain. */
  lemma {:induction false} OneLine(g: Cluster, p: nat, y: nat, z: nat)
    requires g.Valid() && AtMostOneChild(g) && p in g.used && y in g.used && z in g.used
    requires p in g.Anc(y) && p in g.Anc(z)
    ensures Related(g, y, z)
    decreases |g.Desc(p)|
  {
    if p != y && p != z {
      var c := ChildTowards(g, p, y);
      var d := ChildTowards(g, p, z);
      assert c == d;
      DescendantsShrink(g, p, c);
      OneLine(g, c, y, z);
    }
  }

  lemma DescendantsShrink(g: Cluster, p: nat, c: nat)
    requires g.Valid() && p in g.used && c in g.used && p in g.Anc(c) && p != c
    ensures |g.Desc(c)| < |g.Desc(p)|
  {
    forall i | i in g.Desc(c) ensures i in g.Desc(p) {
      assert c in g.Anc(i) && g.Anc(c) <= g.Anc(i);
    }
    Smaller(g.Desc(c), g.Desc(p), p);
  }

  // ----- groups that cannot be improved

  /** Nothing that could go first has a higher feerate than the whole. */
  ghost predicate Solid(g: Cluster, c: seq<nat>) {
    forall s | Closed(g, Elems(c), s) :: Excess(SeqRate(g, c), SetRate(g, s)) <= 0
  }

  ghost predicate AllSolid(g: Cluster, cs: seq<seq<nat>>) {
    forall k | 0 <= k < |cs| :: Solid(g, cs[k])
  }

  /** Everything in `c` is an ancestor of `x`, which is in it. */
  ghost predicate Heads(g: Cluster, c: seq<nat>, x: nat) {
    x in Elems(c) && Elems(c) <= g.Anc(x)
  }

  /** What could go first without `x` does not exceed a rate. */
  ghost predicate LowWithout(g: Cluster, c: seq<nat>, x: nat, rate: FeeFrac) {
    forall s | Closed(g, Elems(c), s) && x !in s :: Excess(rate, SetRate(g, s)) <= 0
  }

  lemma RateBelow(low: FeeFrac, high: FeeFrac, f: FeeFrac)
    requires low.size > 0 && high.size > 0 && f.size >= 0 && Excess(low, high) >= 0
    ensures Excess(low, f) <= 0 ==> Excess(high, f) <= 0
    ensures Excess(high, f) >= 0 ==> Excess(low, f) >= 0
  {
    hide Excess;
    ExcessSwap(low, high);
    ExcessCombination(high, low, f);
    ExcessCombination(low, high, f);
    Signs(low.size, high.size, f.size, Excess(high, f), Excess(low, f), Excess(low, high));
  }

  lemma Signs(l: int, h: int, n: int, x: int, y: int, d: int)
    requires l > 0 && h > 0 && n >= 0 && d >= 0 && l * x == n * -d + h * y && h * y == n * d + l * x
    ensures y <= 0 ==> x <= 0
    ensures x >= 0 ==> y >= 0
  {
    assert n * d >= 0 && n * -d == -(n * d);
    MulSign(l, x);
    MulSign(h, y);
  }

  lemma SubsetSize(g: Cluster, c: seq<nat>, s: set<nat>)
    requires SizedSeq(g, c) && s <= Elems(c)
    ensures SetRate(g, s).size >= 0
  {
    SetRatePositive(g, s);
  }

  lemma SplitClosed(g: Cluster, p: seq<nat>, c: seq<nat>, s: set<nat>)
    requires Closed(g, Elems(p + c), s)
    ensures Closed(g, Elems(p), s * Elems(p)) && Closed(g, Elems(c), s * Elems(c))
  {
  }

  lemma SplitExcess(g: Cluster, p: seq<nat>, c: seq<nat>, s: set<nat>, rate: FeeFrac)
    requires NoDup(p + c) && s <= Elems(p + c)
    ensures Excess(rate, SetRate(g, s)) == Excess(rate, SetRate(g, s * Elems(p))) + Excess(rate, SetRate(g, s * Elems(c)))
  {
    hide SetRate, Excess;
    NoDupConcat(p, c);
    ElemsConcat(p, c);
    assert s == s * Elems(p) + s * Elems(c);
    SetRateUnion(g, s * Elems(p), s * Elems(c));
    ExcessPlus(rate, SetRate(g, s * Elems(p)), SetRate(g, s * Elems(c)));
  }

  /** Merging a group into the moving one, all of which leads up to `x`. */
  lemma SolidMerge(g: Cluster, p: seq<nat>, c: seq<nat>, x: nat)
    requires NoDup(p + c) && SizedSeq(g, p + c) && p != [] && c != [] && SeqRate(g, c).Higher(SeqRate(g, p))
    requires Solid(g, p) && Heads(g, c, x) && LowWithout(g, c, x, SeqRate(g, p)) && Elems(p) <= g.Anc(x)
    ensures Heads(g, p + c, x) && LowWithout(g, p + c, x, SeqRate(g, p)) && Solid(g, p + c)
  {
    hide SetRate, Excess, SeqRate;
    var all, low := p + c, SeqRate(g, p);
    ElemsConcat(p, c);
    MergedRate(g, p, c);
    forall s | Closed(g, Elems(all), s)
      ensures x !in s ==> Excess(low, SetRate(g, s)) <= 0
      ensures Excess(SeqRate(g, all), SetRate(g, s)) <= 0
    {
      if x in s {
        assert s == Elems(all);
        SeqRateIsSetRate(g, all);
        Self(SeqRate(g, all));
      } else {
        SplitClosed(g, p, c, s);
        SplitExcess(g, p, c, s, low);
        SubsetSize(g, all, s);
        RateBelow(low, SeqRate(g, all), SetRate(g, s));
      }
    }
  }

  lemma MergedRate(g: Cluster, p: seq<nat>, c: seq<nat>)
    requires SizedSeq(g, p + c) && p != [] && c != [] && SeqRate(g, c).Higher(SeqRate(g, p))
    ensures SeqRate(g, p).size > 0 && SeqRate(g, p + c).size > 0 && Excess(SeqRate(g, p), SeqRate(g, p + c)) >= 0
  {
    SeqRatePositive(g, p);
    SeqRatePositive(g, c);
    SeqRateConcat(g, p, c);
    Mediant(SeqRate(g, p), SeqRate(g, c));
    ExcessSwap(SeqRate(g, c), SeqRate(g, p));
  }

  lemma SolidOne(g: Cluster, x: nat)
    requires x in g.Anc(x)
    ensures Solid(g, [x]) && Heads(g, [x], x) && forall rate :: LowWithout(g, [x], x, rate)
  {
    hide Excess;
    ElemsOne(x);
    SeqRateOne(g, x);
    SeqRateIsSetRate(g, [x]);
    Self(g.Rate(x));
    forall rate ensures Excess(rate, SetRate(g, {})) == 0 {
      NoExcess(rate);
    }
    forall s | Closed(g, {x}, s) ensures s == {} || s == {x} {
      assert x !in s ==> s == {};
    }
  }

  lemma NoExcess(rate: FeeFrac)
    ensures Excess(rate, EMPTY) == 0
  {
  }

  /** A connected group that something leading up to `x` depends on leads up to `x` altogether. */
  lemma LeadsUp(g: Cluster, p: seq<nat>, c: seq<nat>, x: nat)
    requires g.Valid() && AtMostOneChild(g) && Elems(p) <= g.used && x in g.used
    requires Connected(g, Elems(p)) && DependsOn(g, c, p) && Elems(c) <= g.Anc(x)
    requires forall y | y in Elems(p) :: x !in g.Anc(y)
    ensures Elems(p) <= g.Anc(x)
  {
    hide Cluster.Valid, AtMostOneChild;
    var part := Elems(p) * g.Anc(x);
    var k :| k in c && g.Anc(k) * Elems(p) != {};
    assert k in Elems(c);
    var q :| q in g.Anc(k) * Elems(p);
    FurtherUp(g, q, k, x);
    assert q in part;
    forall a, b | a in part && b in Elems(p) && Related(g, a, b) ensures b in part {
      AlsoLeadsUp(g, a, b, x);
    }
    assert Separated(g, Elems(p), part);
  }

  lemma FurtherUp(g: Cluster, q: nat, k: nat, x: nat)
    requires g.Valid() && x in g.used && k in g.Anc(x) && q in g.Anc(k)
    ensures q in g.Anc(x)
  {
  }

  lemma AlsoLeadsUp(g: Cluster, a: nat, b: nat, x: nat)
    requires g.Valid() && AtMostOneChild(g) && a in g.used && b in g.used && x in g.used
    requires a in g.Anc(x) && Related(g, a, b) && x !in g.Anc(b)
    ensures b in g.Anc(x)
  {
    if a in g.Anc(b) {
      OneLine(g, a, b, x);
    }
  }

  // ----- the pass

  /** The state while a group that leads up to `x` moves forward. */
  ghost predicate TreeSettling(g: Cluster, before: seq<seq<nat>>, cur: seq<nat>, after: seq<seq<nat>>, x: nat) {
    && AllSolid(g, before + after) && Solid(g, cur) && Heads(g, cur, x)
    && (before != [] ==> LowWithout(g, cur, x, SeqRate(g, before[|before| - 1])))
  }

  lemma LowHigher(g: Cluster, c: seq<nat>, x: nat, low: FeeFrac, high: FeeFrac)
    requires SizedSeq(g, c) && low.size > 0 && high.size > 0 && Excess(low, high) >= 0 && LowWithout(g, c, x, low)
    ensures LowWithout(g, c, x, high)
  {
    hide SetRate, Excess;
    forall s | Closed(g, Elems(c), s) && x !in s ensures Excess(high, SetRate(g, s)) <= 0 {
      SubsetSize(g, c, s);
      RateBelow(low, high, SetRate(g, s));
    }
  }

  /** The groups further forward have feerates at least as high. */
  lemma NextRate(g: Cluster, init: seq<seq<nat>>, last: seq<nat>, cur: seq<nat>, after: seq<seq<nat>>)
    requires GoodGroups(g, init + [last] + after) && SizedSeq(g, Order(init + [last], cur, after)) && init != []
    ensures var next := SeqRate(g, init[|init| - 1]);
            next.size > 0 && SeqRate(g, last).size > 0 && Excess(SeqRate(g, last), next) >= 0
  {
    hide SeqRate, Excess, Tight, Connected;
    var all, n := init + [last] + after, |init|;
    assert all[n] == last && all[n - 1] == init[n - 1];
    OrderSized(g, init + [last], cur, after);
    FlattenSized(g, all);
    ExcessSwap(SeqRate(g, last), SeqRate(g, init[n - 1]));
    ExcessSwap(SeqRate(g, init[n - 1]), SeqRate(g, last));
  }

  lemma MiddleFacts(g: Cluster, a: seq<nat>, p: seq<nat>, c: seq<nat>, b: seq<nat>, x: nat)
    requires Topological(g, a + p + c + b) && x in Elems(c)
    ensures NoDup(p + c) && Elems(p) <= Elems(a + p + c + b) && Elems(c) <= Elems(a + p + c + b)
    ensures forall y | y in Elems(p) :: x !in g.Anc(y)
  {
    assert a + p + c + b == a + (p + c) + b == (a + p) + (c + b);
    PrefixClosed(g, a + p, c + b);
    NoDupConcat(a + (p + c), b);
    NoDupConcat(a, p + c);
    NoDupConcat(a + p, c + b);
    ElemsConcat(a, p);
    ElemsConcat(c, b);
    ElemsConcat(a + p, c + b);
  }

  /** What a step of a moving group needs to know. */
  ghost predicate TreeStep(g: Cluster, init: seq<seq<nat>>, last: seq<nat>, cur: seq<nat>, after: seq<seq<nat>>, x: nat) {
    && g.Valid() && AtMostOneChild(g) && Elems(Order(init + [last], cur, after)) <= g.used
    && Topological(g, Order(init + [last], cur, after)) && SizedSeq(g, Order(init + [last], cur, after))
    && Settling(g, init + [last], cur, after) && TreeSettling(g, init + [last], cur, after, x)
    && SeqRate(g, cur).Higher(SeqRate(g, last))
  }

  lemma LastSolid(g: Cluster, init: seq<seq<nat>>, last: seq<nat>, cur: seq<nat>, after: seq<seq<nat>>, x: nat)
    requires TreeSettling(g, init + [last], cur, after, x)
    ensures Solid(g, last) && LowWithout(g, cur, x, SeqRate(g, last)) && AllSolid(g, init + after) && AllSolid(g, init + ([last] + after))
  {
    hide Solid, LowWithout;
    var all := init + [last] + after;
    assert all[|init|] == last && init + ([last] + after) == all;
    forall k | 0 <= k < |init + after| ensures Solid(g, (init + after)[k]) {
      assert (init + after)[k] == all[if k < |init| then k else k + 1];
    }
  }

  lemma TreeMerge(g: Cluster, init: seq<seq<nat>>, last: seq<nat>, cur: seq<nat>, after: seq<seq<nat>>, x: nat)
    requires TreeStep(g, init, last, cur, after, x) && DependsOn(g, cur, last)
    ensures TreeSettling(g, init, last + cur, after, x)
  {
    hide Cluster.Valid, Solid, LowWithout, AllSolid, SeqRate, Excess, Tight, Connected, GoodGroups, AtMostOneChild, Topological, DependsOn;
    LastSolid(g, init, last, cur, after, x);
    LastGroup(g, init + [last], cur, after);
    TightNonempty(g, last);
    TightNonempty(g, cur);
    FlattenSnoc(init, last);
    MiddleFacts(g, Flatten(init), last, cur, Flatten(after), x);
    LeadsUp(g, last, cur, x);
    MiddleSized(g, Flatten(init), last, cur, Flatten(after));
    SolidMerge(g, last, cur, x);
    if init != [] {
      NextRate(g, init, last, cur, after);
      LowHigher(g, last + cur, x, SeqRate(g, last), SeqRate(g, init[|init| - 1]));
    }
  }

  lemma TightNonempty(g: Cluster, c: seq<nat>)
    requires Tight(g, c)
    ensures c != []
  {
  }

  lemma MiddleSized(g: Cluster, a: seq<nat>, p: seq<nat>, c: seq<nat>, b: seq<nat>)
    requires SizedSeq(g, a + p + c + b)
    ensures SizedSeq(g, p + c)
  {
    forall i | i in p + c ensures i in a + p + c + b {
    }
  }

  lemma TreeSwap(g: Cluster, init: seq<seq<nat>>, last: seq<nat>, cur: seq<nat>, after: seq<seq<nat>>, x: nat)
    requires TreeStep(g, init, last, cur, after, x)
    ensures TreeSettling(g, init, cur, [last] + after, x)
  {
    hide Cluster.Valid, Solid, LowWithout, AllSolid, SeqRate, Excess, Tight, Connected, GoodGroups, AtMostOneChild, Topological;
    LastSolid(g, init, last, cur, after, x);
    OrderSized(g, init + [last], cur, after);
    if init != [] {
      NextRate(g, init, last, cur, after);
      LowHigher(g, cur, x, SeqRate(g, last), SeqRate(g, init[|init| - 1]));
    }
  }

  lemma {:induction false} SettleSolid(g: Cluster, before: seq<seq<nat>>, cur: seq<nat>, after: seq<seq<nat>>, x: nat)
    requires g.Valid() && AtMostOneChild(g) && Elems(Order(before, cur, after)) <= g.used
    requires Topological(g, Order(before, cur, after)) && SizedSeq(g, Order(before, cur, after))
    requires Settling(g, before, cur, after) && TreeSettling(g, before, cur, after, x)
    ensures AllSolid(g, Settle(g, before, cur, after))
    decreases |before|
  {
    hide Cluster.Valid, Solid, Settling, TreeSettling, SeqRate, Topological, AtMostOneChild, DependsOn, SizedSeq;
    if before != [] && SeqRate(g, cur).Higher(SeqRate(g, before[|before| - 1])) {
      var init, last := before[..|before| - 1], before[|before| - 1];
      assert before == init + [last];
      if DependsOn(g, cur, last) {
        TreeMerge(g, init, last, cur, after, x);
        MergeStep(g, init, last, cur, after);
        SettleSolid(g, init, last + cur, after, x);
      } else {
        TreeSwap(g, init, last, cur, after, x);
        SwapStep(g, init, last, cur, after);
        var old_, new_ := Order(init + [last], cur, after), Order(init, cur, [last] + after);
        assert old_ + [] == old_ && new_ + [] == new_;
        SwapOrder(g, init, last, cur, after, []);
        SameSized(g, old_, new_);
        SettleSolid(g, init, cur, [last] + after, x);
      }
    } else {
      InPlaceSolid(g, before, cur, after, x);
    }
  }

  lemma SameSized(g: Cluster, a: seq<nat>, b: seq<nat>)
    requires SizedSeq(g, a) && Elems(a) == Elems(b)
    ensures SizedSeq(g, b)
  {
    forall i | i in b ensures g.Rate(i).size > 0 {
      assert i in Elems(a);
    }
  }

  lemma InPlaceSolid(g: Cluster, before: seq<seq<nat>>, cur: seq<nat>, after: seq<seq<nat>>, x: nat)
    requires TreeSettling(g, before, cur, after, x)
    ensures AllSolid(g, before + [cur] + after)
  {
    hide Solid, LowWithout;
    var r, all, n := before + [cur] + after, before + after, |before|;
    forall k | 0 <= k < |r| ensures Solid(g, r[k]) {
      assert k != n ==> r[k] == all[if k < n then k else k - 1];
    }
  }

  /** With at most one child each, a pass leaves groups that cannot be improved. */
  lemma {:induction false} PassSolid(g: Cluster, lin: seq<nat>)
    requires g.Valid() && AtMostOneChild(g) && Topological(g, lin) && Elems(lin) <= g.used
    ensures AllSolid(g, Groups(g, lin))
  {
    hide Settled, Settling, TreeSettling, Settle, Solid, AtMostOneChild;
    if lin != [] {
      var n := |lin| - 1;
      var init, x := lin[..n], lin[n];
      assert lin == init + [x] && x in Elems(lin);
      PrefixClosed(g, init, [x]);
      PassSolid(g, init);
      AllSized(g, lin);
      PassWorks(g, init, [x]);
      var cs := Groups(g, init);
      SettledFacts(g, init, cs, [x]);
      StartGroup(g, cs, init, x);
      StartTree(g, cs, x);
      assert Order(cs, [x], []) == Flatten(cs) + [x];
      ElemsConcat(Flatten(cs), [x]);
      ElemsConcat(init, [x]);
      SettleSolid(g, cs, [x], [], x);
    }
  }

  lemma SettledFacts(g: Cluster, old_: seq<nat>, cs: seq<seq<nat>>, rest: seq<nat>)
    requires Settled(g, old_, cs, rest)
    ensures GoodGroups(g, cs) && Elems(Flatten(cs)) == Elems(old_) && Topological(g, Flatten(cs) + rest)
    ensures Dominates(g, Flatten(cs) + rest, old_ + rest)
  {
  }

  lemma StartTree(g: Cluster, cs: seq<seq<nat>>, x: nat)
    requires AllSolid(g, cs) && x in g.Anc(x)
    ensures TreeSettling(g, cs, [x], [], x)
  {
    hide Solid, LowWithout;
    SolidOne(g, x);
    assert cs + [] == cs;
  }

  // ----- no order is better

  /** A part that could go first gains no more over any rate than the whole group, or nothing. */
  lemma PartOfSolid(g: Cluster, c: seq<nat>, s: set<nat>, rate: FeeFrac)
    requires Solid(g, c) && Closed(g, Elems(c), s) && NoDup(c) && c != [] && SizedSeq(g, c) && rate.size > 0
    ensures Excess(rate, SeqRate(g, c)) <= 0 ==> Excess(rate, SetRate(g, s)) <= 0
    ensures Excess(rate, SeqRate(g, c)) >= 0 ==> Excess(rate, SetRate(g, s)) <= Excess(rate, SeqRate(g, c))
  {
    hide SetRate, Excess, SeqRate;
    var C, S, R := SeqRate(g, c), SetRate(g, s), SetRate(g, Elems(c) - s);
    SeqRateIsSetRate(g, c);
    SetRateUnion(g, s, Elems(c) - s);
    assert s + (Elems(c) - s) == Elems(c);
    SeqRatePositive(g, c);
    SubsetSize(g, c, s);
    SubsetSize(g, c, Elems(c) - s);
    Self(C);
    ExcessPlus(C, S, R);
    ExcessPlus(rate, S, R);
    ExcessSwap(rate, C);
    if Excess(rate, C) <= 0 {
      RateBelow(C, rate, S);
    }
    if Excess(rate, C) >= 0 {
      RateBelow(rate, C, R);
    }
  }

  /** What of a set is in each group could go first there. */
  ghost predicate ClosedInEach(g: Cluster, cs: seq<seq<nat>>, s: set<nat>) {
    forall k | 0 <= k < |cs| :: Closed(g, Elems(cs[k]), s * Elems(cs[k]))
  }

  ghost predicate SolidOrder(g: Cluster, cs: seq<seq<nat>>) {
    AllSolid(g, cs) && AllTight(g, cs) && Descending(g, cs) && NoDup(Flatten(cs)) && SizedSeq(g, Flatten(cs))
  }

  lemma SolidTail(g: Cluster, cs: seq<seq<nat>>, s: set<nat>, rate: FeeFrac)
    requires SolidOrder(g, cs) && ClosedInEach(g, cs, s) && cs != []
    ensures SolidOrder(g, cs[1..]) && ClosedInEach(g, cs[1..], s) && Flatten(cs) == cs[0] + Flatten(cs[1..])
    ensures NoDup(cs[0]) && cs[0] != [] && SizedSeq(g, cs[0]) && Solid(g, cs[0])
    ensures Excess(rate, SetRate(g, s * Elems(Flatten(cs)))) ==
            Excess(rate, SetRate(g, s * Elems(cs[0]))) + Excess(rate, SetRate(g, s * Elems(Flatten(cs[1..]))))
  {
    hide SetRate, Excess, Solid, SeqRate, Tight, Closed, NoDup, Elems, SizedSeq;
    var c, rest := cs[0], cs[1..];
    assert forall k | 0 <= k < |rest| :: rest[k] == cs[k + 1];
    PartsOfConcat(g, c, Flatten(rest));
    TightNonempty(g, c);
    var part := s * Elems(Flatten(cs));
    SplitExcess(g, c, Flatten(rest), part, rate);
    assert part * Elems(c) == s * Elems(c) && part * Elems(Flatten(rest)) == s * Elems(Flatten(rest));
  }

  lemma PartsOfConcat(g: Cluster, c: seq<nat>, rest: seq<nat>)
    requires NoDup(c + rest) && SizedSeq(g, c + rest)
    ensures NoDup(c) && NoDup(rest) && Elems(c + rest) == Elems(c) + Elems(rest) && SizedSeq(g, c) && SizedSeq(g, rest)
  {
    NoDupConcat(c, rest);
    ElemsConcat(c, rest);
    forall i | i in c || i in rest ensures i in c + rest {
    }
  }

  /** Where the first group does not gain, nothing does. */
  lemma {:induction false} NoGain(g: Cluster, cs: seq<seq<nat>>, s: set<nat>, rate: FeeFrac)
    requires SolidOrder(g, cs) && ClosedInEach(g, cs, s) && rate.size > 0
    requires cs != [] ==> Excess(rate, SeqRate(g, cs[0])) <= 0
    ensures Excess(rate, SetRate(g, s * Elems(Flatten(cs)))) <= 0
    decreases |cs|
  {
    hide SetRate, Excess, Solid, SeqRate, SolidOrder, ClosedInEach;
    if cs == [] {
      NothingIn(g, s, rate);
    } else {
      SolidTail(g, cs, s, rate);
      FirstClosed(g, cs, s);
      PartOfSolid(g, cs[0], s * Elems(cs[0]), rate);
      if |cs| > 1 {
        SecondBelow(g, cs, rate);
      }
      NoGain(g, cs[1..], s, rate);
    }
  }

  lemma NothingIn(g: Cluster, s: set<nat>, rate: FeeFrac)
    ensures Excess(rate, SetRate(g, s * Elems(Flatten([])))) == 0
  {
    assert s * Elems(Flatten([])) == {};
    NoExcess(rate);
  }

  lemma FirstClosed(g: Cluster, cs: seq<seq<nat>>, s: set<nat>)
    requires ClosedInEach(g, cs, s) && cs != []
    ensures Closed(g, Elems(cs[0]), s * Elems(cs[0]))
  {
  }

  lemma SecondBelow(g: Cluster, cs: seq<seq<nat>>, rate: FeeFrac)
    requires SolidOrder(g, cs) && |cs| > 1 && rate.size > 0 && Excess(rate, SeqRate(g, cs[0])) <= 0
    ensures Excess(rate, SeqRate(g, cs[1])) <= 0
  {
    hide Excess, Solid, SeqRate, Tight;
    var a, b := SeqRate(g, cs[0]), SeqRate(g, cs[1]);
    FlattenSized(g, cs);
    assert !b.Higher(a);
    ExcessSwap(b, a);
    ExcessSwap(rate, a);
    RateBelow(a, rate, b);
  }

  /** Some groups at the front gain as much over a rate as any set that could go first. */
  lemma {:induction false} BestGroups(g: Cluster, cs: seq<seq<nat>>, s: set<nat>, rate: FeeFrac) returns (m: nat)
    requires SolidOrder(g, cs) && ClosedInEach(g, cs, s) && rate.size > 0
    ensures m <= |cs| && Excess(rate, SeqRate(g, Flatten(cs[..m]))) >= Excess(rate, SetRate(g, s * Elems(Flatten(cs))))
    decreases |cs|
  {
    hide SetRate, Excess, Solid, SeqRate, SolidOrder, ClosedInEach;
    if cs == [] || Excess(rate, SeqRate(g, cs[0])) <= 0 {
      m := 0;
      NoGain(g, cs, s, rate);
      NoneTaken(g, cs, rate);
    } else {
      SolidTail(g, cs, s, rate);
      FirstClosed(g, cs, s);
      PartOfSolid(g, cs[0], s * Elems(cs[0]), rate);
      m := BestGroups(g, cs[1..], s, rate);
      MoreTaken(g, cs, m, rate);
      m := m + 1;
    }
  }

  lemma NoneTaken(g: Cluster, cs: seq<seq<nat>>, rate: FeeFrac)
    ensures Excess(rate, SeqRate(g, Flatten(cs[..0]))) == 0
  {
  }

  lemma MoreTaken(g: Cluster, cs: seq<seq<nat>>, m: nat, rate: FeeFrac)
    requires m < |cs|
    ensures Excess(rate, SeqRate(g, Flatten(cs[..m + 1]))) == Excess(rate, SeqRate(g, cs[0])) + Excess(rate, SeqRate(g, Flatten(cs[1..][..m])))
  {
    hide Excess, SeqRate;
    assert cs[..m + 1] == [cs[0]] + cs[1..][..m];
    FlattenConcat([cs[0]], cs[1..][..m]);
    FlattenOne(cs[0]);
    SeqRateConcat(g, cs[0], Flatten(cs[1..][..m]));
    ExcessPlus(rate, SeqRate(g, cs[0]), SeqRate(g, Flatten(cs[1..][..m])));
  }

  /** Groups that cannot be improved, by descending feerate, are at least as good as any valid order. */
  lemma SolidDominates(g: Cluster, cs: seq<seq<nat>>, other: seq<nat>)
    requires SolidOrder(g, cs) && Topological(g, other) && Elems(other) == Elems(Flatten(cs))
    ensures Dominates(g, Flatten(cs), other)
  {
    hide SetRate, Excess, SeqRate, SolidOrder, Topological, Reaches;
    forall rate: FeeFrac, j: nat | rate.size > 0 && j <= |other|
      ensures Reaches(g, rate, Flatten(cs), Excess(rate, SeqRate(g, other[..j])))
    {
      var s := Elems(other[..j]);
      PrefixIsClosed(g, cs, other, j);
      var m := BestGroups(g, cs, s, rate);
      FlattenPrefix(cs, m);
      assert Flatten(cs)[..|Flatten(cs[..m])|] == Flatten(cs[..m]);
      ReachesAt(g, rate, Flatten(cs), |Flatten(cs[..m])|, Excess(rate, SeqRate(g, other[..j])));
    }
  }

  lemma PrefixIsClosed(g: Cluster, cs: seq<seq<nat>>, other: seq<nat>, j: nat)
    requires Topological(g, other) && Elems(other) == Elems(Flatten(cs)) && j <= |other|
    ensures var s := Elems(other[..j]);
            ClosedInEach(g, cs, s) && s * Elems(Flatten(cs)) == s && SetRate(g, s) == SeqRate(g, other[..j])
  {
    hide SetRate, SeqRate;
    var s := Elems(other[..j]);
    assert other == other[..j] + other[j..];
    PrefixClosed(g, other[..j], other[j..]);
    NoDupConcat(other[..j], other[j..]);
    ElemsConcat(other[..j], other[j..]);
    SeqRateIsSetRate(g, other[..j]);
    forall k | 0 <= k < |cs| ensures Closed(g, Elems(cs[k]), s * Elems(cs[k])) {
      ChunkInside(cs, k);
      assert Elems(cs[k]) <= Elems(other);
    }
  }

  /** With at most one child each, one pass gives an order at least as good as any valid one. */
  lemma TreePass(g: Cluster, lin: seq<nat>, other: seq<nat>)
    requires g.Valid() && AtMostOneChild(g) && Linearizes(g, g.used, lin) && Linearizes(g, g.used, other)
    ensures Dominates(g, Flatten(Groups(g, lin)), other)
  {
    hide Solid, Connected, Dominates, Settled;
    var cs := Groups(g, lin);
    PassSolid(g, lin);
    AllSized(g, lin);
    assert lin + [] == lin && Flatten(cs) + [] == Flatten(cs);
    PassWorks(g, lin, []);
    SettledFacts(g, lin, cs, []);
    SameSized(g, lin, Flatten(cs));
    SolidDominates(g, cs, other);
  }
}
