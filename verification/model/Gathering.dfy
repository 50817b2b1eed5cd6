/** The gathering theorem: when moving a set to the front of a linearization cannot make it worse at
    any point (the claim behind IntersectPrefixes in src/cluster_linearize.h). */
module Gathering {
  import opened FeeFracs
  import opened Positions
  import opened Clusters
  import opened Chunkings
  import opened Diagrams

  /** The set is at least as good as the first chunk, and no shorter intersection with a prefix of
      chunks is better than the whole set. */
  ghost predicate Gatherable(g: Cluster, cs: seq<seq<nat>>, s: set<nat>) {
    && s != {}
    && (cs != [] ==> !SeqRate(g, cs[0]).Higher(SetRate(g, s)))
    && forall m | 0 <= m <= |cs| :: !SetRate(g, s * Elems(Flatten(cs[..m]))).Higher(SetRate(g, s))
  }

  /** The order that puts `front` before what is left of `lin`. */
  function MoveToFront(lin: seq<nat>, front: seq<nat>): seq<nat> {
    front + Filter(lin, Elems(lin) - Elems(front))
  }

  /** What is left of the set after a prefix is at least as good as the set. */
  lemma RestAbove(g: Cluster, s: set<nat>, p: set<nat>, rate: FeeFrac)
    requires forall i | i in s :: g.Rate(i).size > 0
    requires s != {} && !SetRate(g, s * p).Higher(SetRate(g, s))
    requires rate.size > 0 && Excess(rate, SetRate(g, s)) >= 0
    ensures Excess(rate, SetRate(g, s - p)) >= 0
  {
    var S, D, E := SetRate(g, s), SetRate(g, s * p), SetRate(g, s - p);
    assert s == s * p + (s - p);
    SetRateUnion(g, s * p, s - p);
    SetRatePositive(g, s);
    SetRatePositive(g, s - p);
    ExcessSwap(D, S);
    ExcessPlus(S, D, E);
    Self(S);
    if s - p != {} {
      ExcessTransitive(rate, S, E);
    }
  }

  /** The rate of a prefix of the new order that covers the set and the first chunks. */
  lemma GatheredPrefix(g: Cluster, lin: seq<nat>, p: seq<nat>, q: seq<nat>, front: seq<nat>)
    requires lin == p + q && NoDup(lin) && NoDup(front) && Elems(front) <= Elems(lin)
    ensures var f := front + Filter(p, Elems(lin) - Elems(front));
            && f <= MoveToFront(lin, front)
            && SeqRate(g, f) == SeqRate(g, p).Plus(SetRate(g, Elems(front) - Elems(p)))
  {
    var s, keep := Elems(front), Elems(lin) - Elems(front);
    var f := front + Filter(p, keep);
    FilterConcat(p, q, keep);
    assert MoveToFront(lin, front) == f + Filter(q, keep);
    NoDupConcat(p, q);
    ElemsConcat(p, q);
    FilterElems(p, keep);
    NoDupConcat(front, Filter(p, keep));
    ElemsConcat(front, Filter(p, keep));
    SeqRateIsSetRate(g, f);
    SeqRateIsSetRate(g, p);
    assert Elems(f) == Elems(p) + (s - Elems(p));
    SetRateUnion(g, Elems(p), s - Elems(p));
  }

  /** Moving a gatherable set to the front, in any internal order, gives a linearization that is at
      least as good everywhere. */
  lemma GatheringTheorem(g: Cluster, cs: seq<seq<nat>>, lin: seq<nat>, front: seq<nat>)
    requires SizedSeq(g, lin) && NoDup(lin) && IsChunking(g, cs, lin)
    requires NoDup(front) && Elems(front) <= Elems(lin)
    requires Gatherable(g, cs, Elems(front))
    ensures Dominates(g, MoveToFront(lin, front), lin)
  {
    forall rate: FeeFrac, j: nat | rate.size > 0 && j <= |lin|
      ensures Reaches(g, rate, MoveToFront(lin, front), Excess(rate, SeqRate(g, lin[..j])))
    {
      GatheredReaches(g, cs, lin, front, rate, j);
    }
  }

  lemma GatheredReaches(g: Cluster, cs: seq<seq<nat>>, lin: seq<nat>, front: seq<nat>, rate: FeeFrac, j: nat)
    requires SizedSeq(g, lin) && NoDup(lin) && IsChunking(g, cs, lin)
    requires NoDup(front) && Elems(front) <= Elems(lin)
    requires Gatherable(g, cs, Elems(front))
    requires rate.size > 0 && j <= |lin|
    ensures Reaches(g, rate, MoveToFront(lin, front), Excess(rate, SeqRate(g, lin[..j])))
  {
    var s := Elems(front);
    var new_ := MoveToFront(lin, front);
    SetRatePositive(g, s);
    if Excess(rate, SetRate(g, s)) < 0 {
      NonemptyChunking(g, cs, lin);
      if cs != [] {
        FirstChunkBelow(g, cs, lin, s, rate);
        PrefixBelow(g, cs, lin, rate, j);
      }
      assert new_[..0] == [];
      assert Excess(rate, SeqRate(g, new_[..0])) >= Excess(rate, SeqRate(g, lin[..j]));
    } else {
      var m := BestBoundary(g, cs, lin, rate, j);
      FlattenPrefix(cs, m);
      var p, q := Flatten(cs[..m]), Flatten(cs[m..]);
      RestAbove(g, s, Elems(p), rate);
      GatheredPrefix(g, lin, p, q, front);
      var f := front + Filter(p, Elems(lin) - s);
      ExcessPlus(rate, SeqRate(g, p), SetRate(g, s - Elems(p)));
      assert new_[..|f|] == f;
      assert Excess(rate, SeqRate(g, new_[..|f|])) >= Excess(rate, SeqRate(g, lin[..j]));
    }
  }

  lemma FirstChunkBelow(g: Cluster, cs: seq<seq<nat>>, lin: seq<nat>, s: set<nat>, rate: FeeFrac)
    requires SizedSeq(g, lin) && IsChunking(g, cs, lin) && cs != []
    requires s != {} && forall i | i in s :: g.Rate(i).size > 0
    requires !SeqRate(g, cs[0]).Higher(SetRate(g, s))
    requires rate.size > 0 && Excess(rate, SetRate(g, s)) < 0
    ensures Excess(rate, SeqRate(g, cs[0])) < 0
  {
    var C, S := SeqRate(g, cs[0]), SetRate(g, s);
    ChunkRatesPositive(g, cs, lin);
    assert ChunkRates(g, cs)[0] == C;
    SetRatePositive(g, s);
    ExcessSwap(C, S);
    ExcessSwap(S, C);
    ExcessSwap(rate, S);
    ExcessSwap(rate, C);
    ExcessTransitive(C, S, rate);
  }
}
