/** Running a cluster backwards: dependencies reversed and fees negated.  An even pass of
    PostLinearize (src/cluster_linearize.h) is a forward pass on the reversed cluster. */
module Reversals {
  import opened FeeFracs
  import opened Positions
  import opened Clusters
  import opened Chunkings
  import opened Diagrams

  function Negated(f: FeeFrac): FeeFrac {
    FeeFrac(-f.fee, f.size)
  }

  function ReversedGraph(g: Cluster): Cluster {
    Cluster(seq(|g.entries|, i requires 0 <= i < |g.entries| =>
                  Entry(Negated(g.entries[i].feerate), g.entries[i].descendants, g.entries[i].ancestors)),
            g.used)
  }

  function Reversed(s: seq<nat>): seq<nat> {
    seq(|s|, i requires 0 <= i < |s| => s[|s| - 1 - i])
  }

  lemma ReversedEntry(g: Cluster, i: nat)
    requires i < |g.entries|
    ensures |ReversedGraph(g).entries| == |g.entries|
    ensures ReversedGraph(g).entries[i] ==
            Entry(Negated(g.entries[i].feerate), g.entries[i].descendants, g.entries[i].ancestors)
  {
  }

  lemma ReversedSize(g: Cluster)
    ensures |ReversedGraph(g).entries| == |g.entries|
  {
  }

  lemma ReversedRateAt(g: Cluster, i: nat)
    ensures ReversedGraph(g).Rate(i) == Negated(g.Rate(i))
  {
    hide ReversedGraph;
    ReversedSize(g);
    if i < |g.entries| {
      ReversedEntry(g, i);
    }
  }

  lemma ReversedAncestors(g: Cluster, i: nat)
    ensures ReversedGraph(g).Anc(i) == g.Desc(i)
  {
    hide ReversedGraph;
    ReversedSize(g);
    if i < |g.entries| {
      ReversedEntry(g, i);
    }
  }

  lemma ReversedDescendants(g: Cluster, i: nat)
    ensures ReversedGraph(g).Desc(i) == g.Anc(i)
  {
    hide ReversedGraph;
    ReversedSize(g);
    if i < |g.entries| {
      ReversedEntry(g, i);
    }
  }

  lemma ReversedGraphAt(g: Cluster, i: nat)
    ensures ReversedGraph(g).Rate(i) == Negated(g.Rate(i))
    ensures ReversedGraph(g).Anc(i) == g.Desc(i) && ReversedGraph(g).Desc(i) == g.Anc(i)
  {
    hide ReversedGraph, Cluster.Rate, Cluster.Anc, Cluster.Desc;
    ReversedRateAt(g, i);
    ReversedAncestors(g, i);
    ReversedDescendants(g, i);
  }

  lemma ReversedValid(g: Cluster)
    requires g.Valid()
    ensures ReversedGraph(g).Valid()
  {
    var r := ReversedGraph(g);
    forall i ensures r.Rate(i) == Negated(g.Rate(i)) && r.Anc(i) == g.Desc(i) && r.Desc(i) == g.Anc(i) {
      ReversedGraphAt(g, i);
    }
    forall i, j | i in r.used && j in r.Anc(i) ensures r.Anc(j) <= r.Anc(i) {
      forall k | k in g.Desc(j) ensures k in g.Desc(i) {
        assert j in g.Anc(k) && i in g.Anc(j);
      }
    }
  }

  lemma ReversedConcat(a: seq<nat>, b: seq<nat>)
    ensures Reversed(a + b) == Reversed(b) + Reversed(a)
  {
  }

  lemma ReversedElems(s: seq<nat>)
    ensures Elems(Reversed(s)) == Elems(s) && (NoDup(s) ==> NoDup(Reversed(s)))
    ensures Reversed(Reversed(s)) == s
  {
    var r := Reversed(s);
    forall x | x in s ensures x in r {
      var i :| 0 <= i < |s| && s[i] == x;
      assert r[|s| - 1 - i] == x;
    }
  }

  lemma {:induction false} ReversedRate(g: Cluster, s: seq<nat>)
    ensures SeqRate(ReversedGraph(g), Reversed(s)) == Negated(SeqRate(g, s))
  {
    var r := ReversedGraph(g);
    if s == [] {
      assert Reversed(s) == [];
    } else {
      var x, t := s[0], s[1..];
      assert s == [x] + t;
      calc {
        SeqRate(r, Reversed(s));
        { ReversedConcat([x], t); assert Reversed([x]) == [x]; }
        SeqRate(r, Reversed(t) + [x]);
        { SeqRateConcat(r, Reversed(t), [x]); SeqRateOne(r, x); }
        SeqRate(r, Reversed(t)).Plus(r.Rate(x));
        { ReversedRate(g, t); ReversedGraphAt(g, x); }
        Negated(SeqRate(g, t)).Plus(Negated(g.Rate(x)));
        { NegatedPlus(g.Rate(x), SeqRate(g, t)); }
        Negated(g.Rate(x).Plus(SeqRate(g, t)));
        Negated(SeqRate(g, s));
      }
    }
  }

  lemma NegatedPlus(a: FeeFrac, b: FeeFrac)
    ensures Negated(b).Plus(Negated(a)) == Negated(a.Plus(b))
  {
  }

  lemma ReversedTopological(g: Cluster, s: seq<nat>)
    requires g.Consistent() && Elems(s) <= g.used && Topological(g, s)
    ensures Topological(ReversedGraph(g), Reversed(s))
  {
    hide ReversedGraph, Cluster.Consistent, Cluster.Anc, Cluster.Desc;
    var r, t, n := ReversedGraph(g), Reversed(s), |s|;
    ReversedElems(s);
    forall i, j | 0 <= i < n && 0 <= j < n && t[i] in r.Anc(t[j]) ensures i <= j {
      var p, q := n - 1 - i, n - 1 - j;
      assert t[i] == s[p] && t[j] == s[q] && s[p] in Elems(s) && s[q] in Elems(s);
      ReversedAncestor(g, s[p], s[q]);
      assert q <= p;
    }
  }

  lemma ReversedAncestor(g: Cluster, a: nat, b: nat)
    requires g.Consistent() && a in g.used && b in g.used
    ensures a in ReversedGraph(g).Anc(b) <==> b in g.Anc(a)
  {
    ReversedGraphAt(g, b);
  }

  lemma TwiceReversed(g: Cluster)
    ensures ReversedGraph(ReversedGraph(g)) == g
  {
    var r := ReversedGraph(ReversedGraph(g));
    forall i | 0 <= i < |g.entries| ensures r.entries[i] == g.entries[i] {
      NegatedTwice(g.entries[i].feerate);
    }
    assert r.entries == g.entries;
  }

  lemma NegatedTwice(f: FeeFrac)
    ensures Negated(Negated(f)) == f
  {
  }

  lemma ExcessNegated(rate: FeeFrac, f: FeeFrac)
    ensures Excess(Negated(rate), Negated(f)) == -Excess(rate, f)
  {
    assert (-f.fee) * rate.size == -(f.fee * rate.size);
    assert (-rate.fee) * f.size == -(rate.fee * f.size);
  }

  /** The excess of a prefix of the reversed order is that of the complementary prefix, up to a
      constant. */
  lemma ReversedPrefix(g: Cluster, s: seq<nat>, i: nat, k: nat, rate: FeeFrac)
    requires i + k == |s|
    ensures Excess(Negated(rate), SeqRate(ReversedGraph(g), Reversed(s)[..k]))
         == Excess(rate, SeqRate(g, s[..i])) - Excess(rate, SeqRate(g, s))
  {
    var a, b := s[..i], s[i..];
    assert s == a + b;
    ReversedConcat(a, b);
    assert Reversed(s)[..k] == Reversed(b);
    ReversedRate(g, b);
    ExcessNegated(rate, SeqRate(g, b));
    SeqRateConcat(g, a, b);
    ExcessPlus(rate, SeqRate(g, a), SeqRate(g, b));
  }

  /** One order dominates another exactly if it does so backwards. */
  lemma ReversedDominates(g: Cluster, a: seq<nat>, b: seq<nat>)
    requires SeqRate(g, a) == SeqRate(g, b)
    ensures Dominates(ReversedGraph(g), Reversed(a), Reversed(b)) <==> Dominates(g, a, b)
  {
    hide Dominates, ReversedGraph, Reversed, SeqRate;
    if Dominates(ReversedGraph(g), Reversed(a), Reversed(b)) {
      DominatesBack(g, a, b);
    }
    if Dominates(g, a, b) {
      TwiceReversed(g);
      ReversedElems(a);
      ReversedElems(b);
      ReversedRate(g, a);
      ReversedRate(g, b);
      DominatesBack(ReversedGraph(g), Reversed(a), Reversed(b));
    }
  }

  lemma DominatesBack(g: Cluster, a: seq<nat>, b: seq<nat>)
    requires SeqRate(g, a) == SeqRate(g, b)
    requires Dominates(ReversedGraph(g), Reversed(a), Reversed(b))
    ensures Dominates(g, a, b)
  {
    forall rate: FeeFrac, j: nat | rate.size > 0 && j <= |b|
      ensures Reaches(g, rate, a, Excess(rate, SeqRate(g, b[..j])))
    {
      ReversedReaches(g, a, b, rate, j);
    }
  }

  lemma ReversedReaches(g: Cluster, a: seq<nat>, b: seq<nat>, rate: FeeFrac, j: nat)
    requires SeqRate(g, a) == SeqRate(g, b) && rate.size > 0 && j <= |b|
    requires Dominates(ReversedGraph(g), Reversed(a), Reversed(b))
    ensures Reaches(g, rate, a, Excess(rate, SeqRate(g, b[..j])))
  {
    var k := |b| - j;
    ReversedPrefix(g, b, j, k, rate);
    var i := DominatesAt(ReversedGraph(g), Reversed(a), Reversed(b), Negated(rate), k);
    var m := |a| - i;
    ReversedPrefix(g, a, m, i, rate);
    ReachesAt(g, rate, a, m, Excess(rate, SeqRate(g, b[..j])));
  }
}
