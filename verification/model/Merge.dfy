/** Building an output order piece by piece (the loops of Linearize and MergeLinearizations in
    src/cluster_linearize.h), and merging two linearizations. */
module Merging {
  import opened FeeFracs
  import opened Positions
  import opened Clusters
  import opened Chunkings
  import opened Diagrams
  import opened Gathering
  import opened DepGraphs
  import opened LinearizationChunkings

  /** The output so far is a topologically valid order of everything but `todo`. */
  ghost predicate OutputSoFar(g: Cluster, todo: set<nat>, ret: seq<nat>) {
    && todo <= g.used
    && Topological(g, ret) && Elems(ret) == g.used - todo
    && Closed(g, g.used, Elems(ret))
  }

  lemma OutputStep(g: Cluster, todo: set<nat>, ret: seq<nat>, s: seq<nat>)
    requires OutputSoFar(g, todo, ret)
    requires Topological(g, s) && Closed(g, todo, Elems(s))
    ensures OutputSoFar(g, todo - Elems(s), ret + s)
  {
    ElemsConcat(ret, s);
    TopologicalConcat(g, ret, s);
  }

  /** Finishing with what is left of `lin` would be at least as good as `lin`. */
  ghost predicate NoWorse(g: Cluster, todo: set<nat>, ret: seq<nat>, lin: seq<nat>) {
    Dominates(g, ret + Filter(lin, todo), lin)
  }

  lemma NoWorseStart(g: Cluster, lin: seq<nat>)
    ensures NoWorse(g, Elems(lin), [], lin)
  {
    FilterAll(lin, Elems(lin));
    assert [] + lin == lin;
    DominatesRefl(g, lin);
  }

  lemma NoWorseEnd(g: Cluster, ret: seq<nat>, lin: seq<nat>)
    requires NoWorse(g, {}, ret, lin)
    ensures Dominates(g, ret, lin)
  {
    FilterNone(lin, {});
    assert ret + [] == ret;
  }

  /** Appending a gatherable set keeps the promise. */
  lemma NoWorseStep(g: Cluster, todo: set<nat>, ret: seq<nat>, lin: seq<nat>, s: seq<nat>)
    requires NoDup(lin) && SizedSeq(g, lin) && todo <= Elems(lin)
    requires NoWorse(g, todo, ret, lin)
    requires NoDup(s) && Elems(s) <= todo
    requires Gatherable(g, Chunks(g, Filter(lin, todo)), Elems(s))
    ensures NoWorse(g, todo - Elems(s), ret + s, lin)
  {
    var rest, left := Filter(lin, todo), todo - Elems(s);
    SpecFacts(g, lin, todo, Chunks(g, rest));
    GatheringTheorem(g, Chunks(g, rest), rest, s);
    FilterTwice(lin, todo, left);
    assert todo * left == left;
    assert MoveToFront(rest, s) == s + Filter(lin, left);
    DominatesAppend(g, ret, s + Filter(lin, left), rest);
    assert ret + (s + Filter(lin, left)) == ret + s + Filter(lin, left);
    DominatesTrans(g, ret + s + Filter(lin, left), ret + rest, lin);
  }

  /** What is known about the first chunk of what is left of a linearization. */
  lemma FirstChunkFacts(g: Cluster, todo: set<nat>, lin: seq<nat>)
    requires Topological(g, lin) && SizedSeq(g, lin) && todo <= Elems(lin) && todo != {}
    ensures var cs := Chunks(g, Filter(lin, todo));
            && cs != [] && Infos(g, cs)[0] == Info(g, cs[0])
            && IsSetInfo(g, Info(g, cs[0])) && Elems(cs[0]) != {}
            && Closed(g, todo, Elems(cs[0]))
  {
    var rest := Filter(lin, todo);
    var cs := Chunks(g, rest);
    SpecFacts(g, lin, todo, cs);
    RemainingHasChunk(g, lin, todo, cs);
    ChunkingTail(g, cs, rest);
    var c, tail := cs[0], Flatten(cs[1..]);
    FilterTopological(g, lin, todo);
    PrefixClosed(g, c, tail);
    NoDupConcat(c, tail);
    SeqRateIsSetRate(g, c);
    assert c[0] in Elems(c);
  }

  /** A part of the first chunk that is not worse than that chunk can be moved to the front. */
  lemma InsideFirstChunk(g: Cluster, cs: seq<seq<nat>>, s: set<nat>)
    requires cs != [] && s != {} && s <= Elems(cs[0])
    requires !SetRate(g, s).Lower(SeqRate(g, cs[0]))
    ensures Gatherable(g, cs, s)
  {
    forall m | 0 <= m <= |cs| ensures !SetRate(g, s * Elems(Flatten(cs[..m]))).Higher(SetRate(g, s)) {
      if m == 0 {
        assert s * Elems(Flatten(cs[..m])) == {};
      } else {
        assert Flatten(cs[..m]) == cs[0] + Flatten(cs[..m][1..]);
        assert s * Elems(Flatten(cs[..m])) == s;
      }
    }
    ExcessSwap(SeqRate(g, cs[0]), SetRate(g, s));
    ExcessSwap(SetRate(g, s), SeqRate(g, cs[0]));
  }

  /** The set MergeLinearizations outputs next: the better first chunk, cut down to a part that does
      not hurt the other linearization either. */
  method BestOfBoth(g: Cluster, c1: LinearizationChunking, c2: LinearizationChunking) returns (best: SetInfo)
    requires c1.Valid() && c2.Valid() && c1.depgraph == c2.depgraph == g
    requires c1.todo == c2.todo != {}
    requires Topological(g, c1.original) && Topological(g, c2.original)
    ensures Closed(g, c1.todo, best.transactions)
    ensures Gatherable(g, c1.Spec(), best.transactions) && Gatherable(g, c2.Spec(), best.transactions)
  {
    FirstChunkFacts(g, c1.todo, c1.original);
    FirstChunkFacts(g, c2.todo, c2.original);
    SpecFacts(g, c1.original, c1.todo, c1.Spec());
    SpecFacts(g, c2.original, c2.todo, c2.Spec());
    FilterTopological(g, c1.original, c1.todo);
    FilterTopological(g, c2.original, c2.todo);
    var first1, first2 := c1.GetChunk(0), c2.GetChunk(0);
    assert first1 == c1.chunks[c1.skip..][0] && first2 == c2.chunks[c2.skip..][0];
    ExcessSwap(first2.feerate, first1.feerate);
    ExcessSwap(first1.feerate, first2.feerate);
    if first2.feerate.Higher(first1.feerate) {
      best := c1.IntersectPrefixes(first2);
      PrefixPartClosed(g, c1.Remaining(), c1.Spec(), first2.transactions, best.transactions);
      InsideFirstChunk(g, c2.Spec(), best.transactions);
    } else {
      best := c2.IntersectPrefixes(first1);
      PrefixPartClosed(g, c2.Remaining(), c2.Spec(), first1.transactions, best.transactions);
      InsideFirstChunk(g, c1.Spec(), best.transactions);
    }
  }

  /** The output so far can be completed to something as good as both inputs. */
  ghost predicate MergedSoFar(g: Cluster, todo: set<nat>, ret: seq<nat>, lin1: seq<nat>, lin2: seq<nat>) {
    OutputSoFar(g, todo, ret) && NoWorse(g, todo, ret, lin1) && NoWorse(g, todo, ret, lin2)
  }

  lemma MergeStart(g: Cluster, lin1: seq<nat>, lin2: seq<nat>)
    requires Linearizes(g, g.used, lin1) && Linearizes(g, g.used, lin2)
    ensures MergedSoFar(g, g.used, [], lin1, lin2)
  {
    NoWorseStart(g, lin1);
    NoWorseStart(g, lin2);
  }

  lemma MergeStep(g: Cluster, todo: set<nat>, ret: seq<nat>, lin1: seq<nat>, lin2: seq<nat>, out: seq<nat>, s: seq<nat>)
    requires g.Valid() && Linearizes(g, g.used, lin1) && Linearizes(g, g.used, lin2)
    requires MergedSoFar(g, todo, ret, lin1, lin2)
    requires out == ret + s && Topological(g, s) && Closed(g, todo, Elems(s))
    requires Gatherable(g, Chunks(g, Filter(lin1, todo)), Elems(s))
    requires Gatherable(g, Chunks(g, Filter(lin2, todo)), Elems(s))
    ensures MergedSoFar(g, todo - Elems(s), out, lin1, lin2)
    ensures |todo - Elems(s)| < |todo|
  {
    AllSized(g, lin1);
    AllSized(g, lin2);
    OutputStep(g, todo, ret, s);
    NoWorseStep(g, todo, ret, lin1, s);
    NoWorseStep(g, todo, ret, lin2, s);
    SmallerSubset(todo - Elems(s), todo);
  }

  lemma MergeEnd(g: Cluster, ret: seq<nat>, lin1: seq<nat>, lin2: seq<nat>)
    requires MergedSoFar(g, {}, ret, lin1, lin2)
    ensures Linearizes(g, g.used, ret) && Dominates(g, ret, lin1) && Dominates(g, ret, lin2)
  {
    NoWorseEnd(g, ret, lin1);
    NoWorseEnd(g, ret, lin2);
  }

  ghost predicate Tracks(c: LinearizationChunking, g: Cluster, lin: seq<nat>, todo: set<nat>)
    reads c
  {
    c.Valid() && c.depgraph == g && c.original == lin && c.todo == todo
  }

  /** Output one more set, and mark it done in both. */
  method MergeRound(g: Cluster, chunking1: LinearizationChunking, chunking2: LinearizationChunking, ret: seq<nat>, ghost todo: set<nat>)
    returns (out: seq<nat>, allDone: bool, ghost left: set<nat>)
    requires g.Valid() && Linearizes(g, g.used, chunking1.original) && Linearizes(g, g.used, chunking2.original)
    requires chunking1 != chunking2 && todo != {}
    requires Tracks(chunking1, g, chunking1.original, todo) && Tracks(chunking2, g, chunking2.original, todo)
    requires MergedSoFar(g, todo, ret, chunking1.original, chunking2.original)
    modifies chunking1, chunking2
    ensures MergedSoFar(g, left, out, chunking1.original, chunking2.original)
    ensures allDone <==> left == {}
    ensures !allDone ==> |left| < |todo| && Tracks(chunking1, g, chunking1.original, left)
    ensures !allDone ==> Tracks(chunking2, g, chunking2.original, left)
  {
    var best := BestOfBoth(g, chunking1, chunking2);
    out := AppendTopo(g, ret, best.transactions);
    MergeStep(g, todo, ret, chunking1.original, chunking2.original, out, out[|ret|..]);
    left := todo - best.transactions;
    chunking1.MarkDone(best.transactions);
    NoChunksLeft(g, chunking1.original, left);
    allDone := chunking1.NumChunksLeft() == 0;
    if !allDone {
      chunking2.MarkDone(best.transactions);
    }
  }

  /** Front sets of either order are taken in turn, so that neither order has the better diagram. */
  method MergeLinearizations(g: Cluster, lin1: seq<nat>, lin2: seq<nat>) returns (ret: seq<nat>)
    requires g.Valid() && Linearizes(g, g.used, lin1) && Linearizes(g, g.used, lin2)
    ensures Linearizes(g, g.used, ret)
    ensures Dominates(g, ret, lin1) && Dominates(g, ret, lin2)
  {
    AllSized(g, lin1);
    AllSized(g, lin2);
    var chunking1 := new LinearizationChunking(g, lin1);
    var chunking2 := new LinearizationChunking(g, lin2);
    ret := [];
    MergeStart(g, lin1, lin2);
    ghost var todo := g.used;
    if g.used == {} {
      MergeEnd(g, ret, lin1, lin2);
      return;
    }
    while true
      invariant chunking1 != chunking2 && fresh(chunking1) && fresh(chunking2)
      invariant Tracks(chunking1, g, lin1, todo) && Tracks(chunking2, g, lin2, todo)
      invariant todo != {} && MergedSoFar(g, todo, ret, lin1, lin2)
      decreases |todo|
    {
      var allDone;
      ret, allDone, todo := MergeRound(g, chunking1, chunking2, ret, todo);
      if allDone {
        break;
      }
    }
    MergeEnd(g, ret, lin1, lin2);
  }

  lemma NoChunksLeft(g: Cluster, lin: seq<nat>, todo: set<nat>)
    requires SizedSeq(g, lin) && todo <= Elems(lin)
    ensures |Infos(g, Chunks(g, Filter(lin, todo)))| == 0 <==> todo == {}
  {
    if todo != {} {
      RemainingHasChunk(g, lin, todo, Chunks(g, Filter(lin, todo)));
    } else {
      FilterNone(lin, todo);
    }
  }
}
