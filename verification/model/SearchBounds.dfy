/** Why the pruning and the jump-ahead step of SearchCandidateFinder::FindCandidateSet
    (src/cluster_linearize.h) do not lose the best set. */
module SearchBounds {
  import opened FeeFracs
  import opened Positions
  import opened Clusters
  import opened DepGraphs
  import opened Chunkings
  import opened LinearizationChunkings

  /** The feerate of `a` is not below that of `b`. */
  predicate AtLeast(a: FeeFrac, b: FeeFrac) {
    !b.Higher(a)
  }

  lemma AtLeastExcess(a: FeeFrac, b: FeeFrac)
    ensures AtLeast(a, b) <==> Excess(b, a) >= 0
    ensures AtLeast(a, b) <==> Excess(a, b) <= 0
    ensures a.Higher(b) <==> Excess(b, a) > 0
    ensures a.Higher(b) <==> Excess(a, b) < 0
  {
    ExcessSwap(a, b);
    ExcessSwap(b, a);
  }

  lemma AtLeastTransitive(a: FeeFrac, b: FeeFrac, c: FeeFrac)
    requires a.size > 0 && b.size > 0 && c.size > 0
    ensures AtLeast(a, b) && AtLeast(b, c) ==> AtLeast(a, c)
    ensures AtLeast(a, b) && b.Higher(c) ==> a.Higher(c)
    ensures a.Higher(b) && AtLeast(b, c) ==> a.Higher(c)
  {
    AtLeastExcess(a, b);
    AtLeastExcess(b, c);
    AtLeastExcess(a, c);
    ExcessTransitive(c, b, a);
  }

  lemma {:induction false} SumBelow(g: Cluster, rate: FeeFrac, s: set<nat>)
    requires forall p | p in s :: Excess(rate, g.Rate(p)) <= 0
    ensures Excess(rate, SetRate(g, s)) <= 0
  {
    if s != {} {
      var p :| p in s;
      SetRateRemove(g, s, p);
      SumBelow(g, rate, s - {p});
      ExcessPlus(rate, g.Rate(p), SetRate(g, s - {p}));
    }
  }

  lemma {:induction false} SumAbove(g: Cluster, rate: FeeFrac, s: set<nat>)
    requires forall p | p in s :: Excess(rate, g.Rate(p)) >= 0
    ensures Excess(rate, SetRate(g, s)) >= 0
  {
    if s != {} {
      var p :| p in s;
      SetRateRemove(g, s, p);
      SumAbove(g, rate, s - {p});
      ExcessPlus(rate, g.Rate(p), SetRate(g, s - {p}));
    }
  }

  lemma ExcessUnion(g: Cluster, rate: FeeFrac, a: set<nat>, b: set<nat>)
    requires a !! b
    ensures Excess(rate, SetRate(g, a + b)) == Excess(rate, SetRate(g, a)) + Excess(rate, SetRate(g, b))
  {
    SetRateUnion(g, a, b);
    ExcessPlus(rate, SetRate(g, a), SetRate(g, b));
  }

  /** `pot` is `inc` with exactly the candidates added that have a higher feerate than the result. */
  ghost predicate Potential(g: Cluster, inc: set<nat>, cand: set<nat>, pot: set<nat>) {
    && inc <= pot <= inc + cand
    && (forall p | p in pot - inc :: g.Rate(p).Higher(SetRate(g, pot)))
    && (forall p | p in cand - pot :: AtLeast(SetRate(g, pot), g.Rate(p)))
  }

  /** No set between `inc` and `inc + cand` has a higher feerate than the potential. */
  lemma PotentialIsBest(g: Cluster, inc: set<nat>, cand: set<nat>, pot: set<nat>, b: set<nat>)
    requires inc !! cand && Potential(g, inc, cand, pot)
    requires inc <= b <= inc + cand
    ensures AtLeast(SetRate(g, pot), SetRate(g, b))
  {
    var P := SetRate(g, pot);
    var both, onlyB, onlyP := pot * b, b - pot, pot - b;
    assert pot == both + onlyP;
    assert b == both + onlyB;
    ExcessUnion(g, P, both, onlyP);
    ExcessUnion(g, P, both, onlyB);
    Self(P);
    forall p | p in onlyP ensures Excess(P, g.Rate(p)) >= 0 {
      AtLeastExcess(g.Rate(p), P);
    }
    forall p | p in onlyB ensures Excess(P, g.Rate(p)) <= 0 {
      AtLeastExcess(P, g.Rate(p));
    }
    SumAbove(g, P, onlyP);
    SumBelow(g, P, onlyB);
    AtLeastExcess(P, SetRate(g, b));
  }

  ghost predicate SizedSet(g: Cluster, s: set<nat>) {
    forall i | i in s :: g.Rate(i).size > 0
  }

  /** `imp` is what of `todo` has a feerate above `best`. */
  ghost predicate IsImproving(g: Cluster, todo: set<nat>, best: FeeFrac, imp: set<nat>) {
    imp <= todo && forall i | i in todo :: i in imp <==> g.Rate(i).Higher(best)
  }

  /** A set compatible with a work item either does not beat `best` or is bounded by the potential,
      although only improving transactions count towards the potential. */
  lemma PotentialBounds(g: Cluster, todo: set<nat>, best: FeeFrac, imp: set<nat>, inc: set<nat>, und: set<nat>, pot: set<nat>, b: set<nat>)
    requires SizedSet(g, todo) && inc + und <= todo && inc !! und && inc != {}
    requires best.size > 0 && IsImproving(g, todo, best, imp)
    requires Potential(g, inc, imp * und, pot)
    requires inc <= b <= inc + und && SetRate(g, b).Higher(best)
    ensures AtLeast(SetRate(g, pot), SetRate(g, b))
  {
    var B := SetRate(g, b);
    var core, low := inc + (b - inc) * imp, (b - inc) - imp;
    assert b == core + low;
    SetRatePositive(g, b);
    SetRatePositive(g, core);
    SetRatePositive(g, pot);
    PotentialIsBest(g, inc, imp * und, pot, core);
    forall p | p in low ensures Excess(B, g.Rate(p)) <= 0 {
      assert p in todo;
      AtLeastTransitive(B, best, g.Rate(p));
      AtLeastExcess(B, g.Rate(p));
    }
    SumBelow(g, B, low);
    ExcessUnion(g, B, core, low);
    Self(B);
    AtLeastExcess(SetRate(g, core), B);
    AtLeastTransitive(SetRate(g, pot), SetRate(g, core), B);
  }

  /** The jump-ahead step: adding closed parts of the potential to a compatible set that beats `best`
      does not make it worse. */
  lemma JumpAhead(g: Cluster, inc: set<nat>, cand: set<nat>, pot: set<nat>, more: set<nat>, b: set<nat>)
    requires SizedSet(g, pot + b) && inc <= b && inc != {}
    requires Potential(g, inc, cand, pot) && inc <= more <= pot
    requires AtLeast(SetRate(g, pot), SetRate(g, b))
    ensures AtLeast(SetRate(g, b + more), SetRate(g, b))
  {
    var B, P := SetRate(g, b), SetRate(g, pot);
    var extra := more - b;
    assert b + more == b + extra;
    SetRatePositive(g, b);
    SetRatePositive(g, pot);
    forall p | p in extra ensures Excess(B, g.Rate(p)) >= 0 {
      assert p in pot - inc;
      AtLeastTransitive(g.Rate(p), P, B);
      AtLeastExcess(g.Rate(p), B);
    }
    SumAbove(g, B, extra);
    ExcessUnion(g, B, b, extra);
    Self(B);
    AtLeastExcess(SetRate(g, b + more), B);
  }

  lemma SameSize(g: Cluster, a: set<nat>, b: set<nat>)
    requires SizedSet(g, b) && a <= b && SetRate(g, a).size == SetRate(g, b).size
    ensures a == b
  {
    assert b == a + (b - a);
    SetRateUnion(g, a, b - a);
    SetRatePositive(g, b - a);
  }

  // ----- computing the potential

  /** Transactions are numbered by decreasing feerate. */
  ghost predicate SortedByFeerate(g: Cluster) {
    forall i, j | i in g.used && j in g.used && i < j :: AtLeast(g.Rate(i), g.Rate(j))
  }

  /** Add candidates to `inc`, best first, as long as they improve it. */
  method ComputePotential(g: Cluster, inc: SetInfo, cand: set<nat>) returns (pot: SetInfo)
    requires g.Sized() && SortedByFeerate(g) && inc.transactions + cand <= g.used
    requires inc.transactions != {} && inc.transactions !! cand && IsSetInfo(g, inc)
    ensures IsSetInfo(g, pot) && Potential(g, inc.transactions, cand, pot.transactions)
  {
    pot := inc;
    var rest := cand;
    while rest != {}
      invariant rest <= cand && IsSetInfo(g, pot) && pot.transactions == inc.transactions + (cand - rest)
      invariant Before(cand - rest, rest)
      invariant forall p | p in pot.transactions - inc.transactions :: g.Rate(p).Higher(pot.feerate)
    {
      var pos := First(rest);
      if !g.Rate(pos).Higher(pot.feerate) {
        RestNotHigher(g, inc.transactions, cand, pot, rest, pos);
        return;
      }
      var more := SetInfo(pot.transactions + {pos}, pot.feerate.Plus(g.Rate(pos)));
      AddPotential(g, inc.transactions, pot, pos, more);
      pot := more;
      rest := rest - {pos};
    }
  }

  lemma RestNotHigher(g: Cluster, inc: set<nat>, cand: set<nat>, pot: SetInfo, rest: set<nat>, pos: nat)
    requires g.Sized() && SortedByFeerate(g) && inc + cand <= g.used && inc != {}
    requires rest <= cand && IsSetInfo(g, pot) && pot.transactions == inc + (cand - rest)
    requires IsFirst(rest, pos) && !g.Rate(pos).Higher(pot.feerate)
    ensures forall p | p in cand - pot.transactions :: AtLeast(pot.feerate, g.Rate(p))
  {
    SetRatePositive(g, pot.transactions);
    forall p | p in cand - pot.transactions ensures AtLeast(pot.feerate, g.Rate(p)) {
      assert p in rest;
      if p != pos {
        assert AtLeast(g.Rate(pos), g.Rate(p));
        AtLeastTransitive(pot.feerate, g.Rate(pos), g.Rate(p));
      }
    }
  }

  lemma AddPotential(g: Cluster, inc: set<nat>, pot: SetInfo, pos: nat, more: SetInfo)
    requires g.Sized() && SortedByFeerate(g) && inc <= pot.transactions <= g.used && pos in g.used - pot.transactions
    requires inc != {} && IsSetInfo(g, pot) && more == SetInfo(pot.transactions + {pos}, pot.feerate.Plus(g.Rate(pos)))
    requires forall p | p in pot.transactions - inc :: p < pos && g.Rate(p).Higher(pot.feerate)
    requires g.Rate(pos).Higher(pot.feerate)
    ensures IsSetInfo(g, more)
    ensures forall p | p in more.transactions - inc :: g.Rate(p).Higher(more.feerate)
  {
    SetRateRemove(g, more.transactions, pos);
    assert more.transactions - {pos} == pot.transactions;
    PlusLaws(pot.feerate, g.Rate(pos), EMPTY);
    SetRatePositive(g, pot.transactions);
    var P, R, M := pot.feerate, g.Rate(pos), more.feerate;
    Mediant(P, R);
    AtLeastExcess(R, P);
    AtLeastExcess(R, M);
    forall p | p in more.transactions - inc ensures g.Rate(p).Higher(M) {
      if p != pos {
        assert AtLeast(g.Rate(p), R);
        AtLeastTransitive(g.Rate(p), R, M);
      }
    }
  }
}
