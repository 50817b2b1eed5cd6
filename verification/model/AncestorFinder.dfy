/** The best remaining ancestor set (AncestorCandidateFinder in src/cluster_linearize.h). */
module AncestorFinders {
  import opened FeeFracs
  import opened Positions
  import opened Clusters
  import opened DepGraphs
  import opened LinearizationChunkings

  lemma BetterMeans(a: FeeFrac, b: FeeFrac)
    ensures a.Better(b) <==> Excess(b, a) > 0 || (Excess(b, a) == 0 && a.size < b.size)
    ensures Excess(b, a) == -Excess(a, b)
  {
    ExcessSwap(a, b);
  }

  lemma NotBetterTransitive(a: FeeFrac, b: FeeFrac, c: FeeFrac)
    requires a.size > 0 && b.size > 0 && c.size > 0 && !a.Better(b) && !b.Better(c)
    ensures !a.Better(c)
  {
    BetterMeans(a, b);
    BetterMeans(b, c);
    BetterMeans(a, c);
    ExcessTransitive(a, b, c);
    ExcessTransitive(c, b, a);
  }

  /** `Better` is a strict weak order on non-empty fractions. */
  lemma BetterTransitive(a: FeeFrac, b: FeeFrac, c: FeeFrac)
    requires a.size > 0 && b.size > 0 && c.size > 0
    requires !a.Better(b) && c.Better(b)
    ensures !a.Better(c)
  {
    BetterMeans(a, b);
    BetterMeans(c, b);
    BetterMeans(a, c);
    ExcessSwap(b, c);
    ExcessTransitive(a, b, c);
    ExcessCombination(a, b, c);
    if Excess(a, b) == 0 && Excess(b, c) == 0 {
      assert b.size * Excess(a, c) == 0;
      MulSign(b.size, Excess(a, c));
    }
  }

  /** The remaining ancestor set of a transaction, with its aggregate feerate. */
  ghost function AncestorSet(g: Cluster, todo: set<nat>, i: nat): set<nat> {
    g.Anc(i) * todo
  }

  ghost predicate AccurateFor(g: Cluster, todo: set<nat>, rates: seq<FeeFrac>, i: nat) {
    i < |rates| && rates[i] == SetRate(g, AncestorSet(g, todo, i))
  }

  lemma AncestorSetClosed(g: Cluster, todo: set<nat>, i: nat)
    requires g.Consistent() && todo <= g.used && i in todo
    ensures Closed(g, todo, AncestorSet(g, todo, i)) && i in AncestorSet(g, todo, i)
  {
  }

  /** Reusing the rate of an ancestor processed earlier gives the rate of the whole set. */
  lemma ReuseAncestor(g: Cluster, i: nat, first: nat)
    requires g.Valid() && i in g.used && first in g.Anc(i) && first != i
    ensures SetRate(g, g.Anc(i)) == SetRate(g, g.Anc(first)).Plus(SetRate(g, g.Anc(i) - g.Anc(first)))
    ensures i in g.Anc(i) - g.Anc(first)
  {
    assert g.Anc(i) == g.Anc(first) + (g.Anc(i) - g.Anc(first));
    SetRateUnion(g, g.Anc(first), g.Anc(i) - g.Anc(first));
  }

  class AncestorCandidateFinder {
    const depgraph: Cluster
    var todo: set<nat>
    var rates: seq<FeeFrac>

    /** The precomputed feerate of every remaining transaction is that of its remaining ancestors. */
    ghost predicate Valid()
      reads this
    {
      && depgraph.Valid() && todo <= depgraph.used
      && |rates| == |depgraph.entries|
      && AllAccurate(depgraph, todo, rates, todo)
    }

    constructor (depgraph: Cluster)
      requires depgraph.Valid()
      ensures Valid() && todo == depgraph.used && this.depgraph == depgraph
    {
      this.depgraph := depgraph;
      todo := depgraph.used;
      var computed := InitialRates(depgraph);
      rates := computed;
    }

    method MarkDone(select: set<nat>)
      requires Valid() && select != {} && select <= todo
      modifies this
      ensures Valid() && todo == old(todo) - select
    {
      rates := WithoutSelected(depgraph, todo, rates, select);
      todo := todo - select;
    }

    function NumRemaining(): nat
      reads this
    {
      |todo|
    }

    method FindCandidateSet() returns (r: SetInfo)
      requires Valid() && todo != {}
      ensures IsSetInfo(depgraph, r)
      ensures r.transactions != {} && Closed(depgraph, todo, r.transactions)
      ensures exists b | b in todo :: r.transactions == AncestorSet(depgraph, todo, b)
      ensures forall i | i in todo :: !SetRate(depgraph, AncestorSet(depgraph, todo, i)).Better(r.feerate)
    {
      var best := BestIndex(depgraph, todo, rates);
      AncestorSetClosed(depgraph, todo, best);
      assert AccurateFor(depgraph, todo, rates, best);
      forall i | i in todo ensures !SetRate(depgraph, AncestorSet(depgraph, todo, i)).Better(rates[best]) {
        assert AccurateFor(depgraph, todo, rates, i);
      }
      r := SetInfo(depgraph.Anc(best) * todo, rates[best]);
    }
  }

  method InitialRates(g: Cluster) returns (rates: seq<FeeFrac>)
    requires g.Valid()
    ensures |rates| == |g.entries|
    ensures AllAccurate(g, g.used, rates, g.used)
  {
    rates := seq(|g.entries|, _ => EMPTY);
    var rest := g.used;
    while rest != {}
      invariant rest <= g.used && |rates| == |g.entries|
      invariant Before(g.used - rest, rest)
      invariant AllAccurate(g, g.used, rates, g.used - rest)
    {
      var i := First(rest);
      var rate := AncestorRate(g, rates, i, g.used - rest);
      ghost var before := rates;
      rates := rates[i := rate];
      forall k | k in g.used - (rest - {i}) ensures AccurateFor(g, g.used, rates, k) {
        assert k == i || AccurateFor(g, g.used, before, k);
      }
      NextBefore(g.used, rest, i);
      rest := rest - {i};
    }
  }

  method AncestorRate(g: Cluster, rates: seq<FeeFrac>, i: nat, ghost done: set<nat>) returns (r: FeeFrac)
    requires g.Valid() && i in g.used
    requires forall j | j in g.used && j < i :: j in done
    requires AllAccurate(g, g.used, rates, done)
    ensures r == SetRate(g, AncestorSet(g, g.used, i))
  {
    assert AncestorSet(g, g.used, i) == g.Anc(i);
    var ancToAdd := g.Anc(i);
    var ancFeerate := EMPTY;
    var first := First(ancToAdd);
    if first < i {
      assert AccurateFor(g, g.used, rates, first) && AncestorSet(g, g.used, first) == g.Anc(first);
      ReuseAncestor(g, i, first);
      ancFeerate := rates[first];
      ancToAdd := ancToAdd - g.Anc(first);
    } else {
      PlusLaws(SetRate(g, ancToAdd), EMPTY, EMPTY);
    }
    var extra := FeeRate(g, ancToAdd);
    r := ancFeerate.Plus(extra);
  }

  /** Subtract each selected transaction from the ancestor-set feerates of those left. */
  method WithoutSelected(g: Cluster, todo: set<nat>, rates: seq<FeeFrac>, select: set<nat>) returns (r: seq<FeeFrac>)
    requires g.Consistent() && select <= todo <= g.used && |rates| == |g.entries|
    requires AllAccurate(g, todo, rates, todo)
    ensures |r| == |rates| && AllAccurate(g, todo - select, r, todo - select)
  {
    r := rates;
    var rest := select;
    var left := todo - select;
    ghost var now := todo;
    while rest != {}
      invariant rest <= select && now == left + rest && |r| == |rates|
      invariant AllAccurate(g, now, r, left)
    {
      var i := First(rest);
      var less := SubtractFrom(g, r, i, g.Desc(i) * left);
      AllStillAccurate(g, left, now, i, r, less);
      r, rest, now := less, rest - {i}, now - {i};
    }
    assert now == left;
  }

  ghost predicate AllAccurate(g: Cluster, todo: set<nat>, rates: seq<FeeFrac>, which: set<nat>) {
    forall i {:trigger AccurateFor(g, todo, rates, i)} | i in which :: AccurateFor(g, todo, rates, i)
  }

  lemma AllStillAccurate(g: Cluster, left: set<nat>, now: set<nat>, i: nat, r: seq<FeeFrac>, less: seq<FeeFrac>)
    requires g.Consistent() && left <= now <= g.used && i in now - left
    requires AllAccurate(g, now, r, left) && Subtracted(g, r, less, i, g.Desc(i) * left)
    ensures AllAccurate(g, now - {i}, less, left)
  {
    forall j | j in left ensures AccurateFor(g, now - {i}, less, j) {
      assert AccurateFor(g, now, r, j);
      StillAccurate(g, left, now, i, r, less, j);
    }
  }

  lemma StillAccurate(g: Cluster, left: set<nat>, now: set<nat>, i: nat, r: seq<FeeFrac>, less: seq<FeeFrac>, j: nat)
    requires g.Consistent() && left <= now <= g.used && i in now - left && j in left
    requires AccurateFor(g, now, r, j) && Subtracted(g, r, less, i, g.Desc(i) * left)
    ensures AccurateFor(g, now - {i}, less, j)
  {
    var a := AncestorSet(g, now, j);
    assert AncestorSet(g, now - {i}, j) == a - {i};
    if j in g.Desc(i) {
      SetRateRemove(g, a, i);
      PlusMinus(g.Rate(i), SetRate(g, a - {i}));
    } else {
      assert a - {i} == a;
    }
  }

  ghost predicate Subtracted(g: Cluster, rates: seq<FeeFrac>, r: seq<FeeFrac>, i: nat, js: set<nat>) {
    && |r| == |rates|
    && forall j | 0 <= j < |r| :: r[j] == if j in js then rates[j].Minus(g.Rate(i)) else rates[j]
  }

  method SubtractFrom(g: Cluster, rates: seq<FeeFrac>, i: nat, js: set<nat>) returns (r: seq<FeeFrac>)
    requires forall j | j in js :: j < |rates|
    ensures Subtracted(g, rates, r, i, js)
  {
    r := rates;
    var rest := js;
    while rest != {}
      invariant rest <= js && Subtracted(g, rates, r, i, js - rest)
    {
      var j := First(rest);
      rest := rest - {j};
      r := r[j := r[j].Minus(g.Rate(i))];
    }
  }

  method BestIndex(g: Cluster, todo: set<nat>, rates: seq<FeeFrac>) returns (best: nat)
    requires g.Valid() && todo <= g.used && todo != {}
    requires AllAccurate(g, todo, rates, todo)
    ensures best in todo && NoneBetter(rates, todo, best)
  {
    best := First(todo);
    AccuratePositive(g, todo, rates, best);
    var rest := todo - {best};
    while rest != {}
      invariant rest <= todo && best in todo - rest
      invariant NoneBetter(rates, todo - rest, best)
    {
      var i := First(rest);
      AccuratePositive(g, todo, rates, i);
      if rates[i].Better(rates[best]) {
        NowBest(g, todo, rates, todo - rest, best, i);
        best := i;
      }
      rest := rest - {i};
    }
  }

  ghost predicate NoneBetter(rates: seq<FeeFrac>, s: set<nat>, best: nat) {
    best < |rates| && forall i | i in s && i < |rates| :: !rates[i].Better(rates[best])
  }

  lemma NowBest(g: Cluster, todo: set<nat>, rates: seq<FeeFrac>, seen: set<nat>, best: nat, i: nat)
    requires g.Valid() && seen <= todo <= g.used && best in todo && i in todo
    requires AllAccurate(g, todo, rates, todo)
    requires NoneBetter(rates, seen, best) && i < |rates| && rates[i].Better(rates[best])
    ensures NoneBetter(rates, seen + {i}, i)
  {
    AccuratePositive(g, todo, rates, i);
    AccuratePositive(g, todo, rates, best);
    forall k | k in seen && k < |rates| ensures !rates[k].Better(rates[i]) {
      AccuratePositive(g, todo, rates, k);
      BetterTransitive(rates[k], rates[best], rates[i]);
    }
  }

  lemma AccuratePositive(g: Cluster, todo: set<nat>, rates: seq<FeeFrac>, i: nat)
    requires g.Valid() && todo <= g.used && i in todo && AllAccurate(g, todo, rates, todo)
    ensures AccurateFor(g, todo, rates, i) && rates[i].size > 0
  {
    AncestorSetClosed(g, todo, i);
    SetRatePositive(g, AncestorSet(g, todo, i));
  }
}
