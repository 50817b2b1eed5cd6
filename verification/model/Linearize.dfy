/** Finding or improving a linearization (Linearize in src/cluster_linearize.h). */
module Linearizing {
  import opened FeeFracs
  import opened Positions
  import opened Clusters
  import opened Chunkings
  import opened Diagrams
  import opened Gathering
  import opened DepGraphs
  import opened LinearizationChunkings
  import opened Merging
  import opened AncestorFinders
  import opened SearchBounds
  import opened Searching
  import opened SearchLoops
  import opened SearchFinders

  /** A topologically valid set of maximal feerate can be moved to the front of any linearization. */
  lemma MaximalIsGatherable(g: Cluster, todo: set<nat>, lin: seq<nat>, s: set<nat>)
    requires g.Valid() && Linearizes(g, g.used, lin) && todo <= g.used
    requires s != {} && Closed(g, todo, s) && forall b :: !Beats(g, todo, SetRate(g, s), b)
    ensures Gatherable(g, Chunks(g, Filter(lin, todo)), s)
  {
    AllSized(g, lin);
    var rest := Filter(lin, todo);
    var cs := Chunks(g, rest);
    SpecFacts(g, lin, todo, cs);
    FilterTopological(g, lin, todo);
    if cs != [] {
      FirstChunkFacts(g, todo, lin);
      assert !Beats(g, todo, SetRate(g, s), Elems(cs[0]));
    }
    forall m | 0 <= m <= |cs| ensures !SetRate(g, s * Elems(Flatten(cs[..m]))).Higher(SetRate(g, s)) {
      var part := s * Elems(Flatten(cs[..m]));
      assert part == PrefixPart(cs, s, m);
      PrefixPartClosed(g, rest, cs, s, part);
      assert part == {} || !Beats(g, todo, SetRate(g, s), part);
    }
  }

  /** Whatever linearization is given, the output so far can be completed to one as good. */
  ghost predicate BestSoFar(g: Cluster, todo: set<nat>, ret: seq<nat>) {
    forall other | Linearizes(g, g.used, other) :: NoWorse(g, todo, ret, other)
  }

  ghost predicate LinearizedSoFar(g: Cluster, todo: set<nat>, ret: seq<nat>, old_: seq<nat>, optimal: bool) {
    && OutputSoFar(g, todo, ret)
    && (old_ != [] ==> NoWorse(g, todo, ret, old_))
    && (optimal ==> BestSoFar(g, todo, ret))
  }

  lemma LinearizeStart(g: Cluster, old_: seq<nat>)
    requires old_ == [] || Linearizes(g, g.used, old_)
    ensures LinearizedSoFar(g, g.used, [], old_, true)
  {
    forall other | Linearizes(g, g.used, other) ensures NoWorse(g, g.used, [], other) {
      NoWorseStart(g, other);
    }
  }

  lemma LinearizeStep(g: Cluster, todo: set<nat>, ret: seq<nat>, old_: seq<nat>, optimal: bool, exact: bool, out: seq<nat>, s: seq<nat>)
    requires g.Valid() && (old_ == [] || Linearizes(g, g.used, old_))
    requires LinearizedSoFar(g, todo, ret, old_, optimal)
    requires out == ret + s && s != [] && Topological(g, s) && Closed(g, todo, Elems(s))
    requires old_ != [] ==> Gatherable(g, Chunks(g, Filter(old_, todo)), Elems(s))
    requires exact ==> forall b :: !Beats(g, todo, SetRate(g, Elems(s)), b)
    ensures LinearizedSoFar(g, todo - Elems(s), out, old_, optimal && exact)
    ensures |todo - Elems(s)| < |todo|
  {
    OutputStep(g, todo, ret, s);
    if old_ != [] {
      AllSized(g, old_);
      NoWorseStep(g, todo, ret, old_, s);
    }
    assert s[0] in Elems(s);
    if optimal && exact {
      forall other | Linearizes(g, g.used, other) ensures NoWorse(g, todo - Elems(s), out, other) {
        AllSized(g, other);
        MaximalIsGatherable(g, todo, other, Elems(s));
        NoWorseStep(g, todo, ret, other, s);
      }
    }
    SmallerSubset(todo - Elems(s), todo);
  }

  lemma LinearizeOutput(g: Cluster, todo: set<nat>, ret: seq<nat>, old_: seq<nat>, optimal: bool, exact: bool, best: SetInfo, out: seq<nat>)
    requires g.Valid() && (old_ == [] || Linearizes(g, g.used, old_))
    requires LinearizedSoFar(g, todo, ret, old_, optimal) && GoodBest(g, todo, best)
    requires ret <= out && Elems(out[|ret|..]) == best.transactions && Topological(g, out[|ret|..])
    requires old_ != [] ==> Gatherable(g, Chunks(g, Filter(old_, todo)), best.transactions)
    requires exact ==> forall b :: !Beats(g, todo, best.feerate, b)
    ensures LinearizedSoFar(g, todo - best.transactions, out, old_, optimal && exact)
    ensures |todo - best.transactions| < |todo|
  {
    var s := out[|ret|..];
    assert out == ret + s;
    LinearizeStep(g, todo, ret, old_, optimal, exact, out, s);
  }

  lemma LinearizeEnd(g: Cluster, ret: seq<nat>, old_: seq<nat>, optimal: bool)
    requires LinearizedSoFar(g, {}, ret, old_, optimal)
    ensures Linearizes(g, g.used, ret)
    ensures old_ != [] ==> Dominates(g, ret, old_)
    ensures optimal ==> forall other | Linearizes(g, g.used, other) :: Dominates(g, ret, other)
  {
    if old_ != [] {
      NoWorseEnd(g, ret, old_);
    }
    if optimal {
      forall other | Linearizes(g, g.used, other) ensures Dominates(g, ret, other) {
        NoWorseEnd(g, ret, other);
      }
    }
  }

  /** What remains of the old linearization, if there is one. */
  function OldTodo(old_: seq<nat>, todo: set<nat>): set<nat> {
    if old_ == [] then {} else todo
  }

  /** The best remaining ancestor set, or the first remaining chunk if that is no worse. */
  method InitialBest(g: Cluster, todo: set<nat>, old_: seq<nat>, ancFinder: AncestorCandidateFinder, chunking: LinearizationChunking)
    returns (best: SetInfo)
    requires g.Valid() && todo != {} && todo <= g.used && (old_ == [] || Linearizes(g, g.used, old_))
    requires ancFinder.Valid() && ancFinder.depgraph == g && ancFinder.todo == todo
    requires Tracks(chunking, g, old_, OldTodo(old_, todo))
    ensures GoodBest(g, todo, best)
    ensures old_ != [] ==> AtLeastFirstChunk(g, chunking.Spec(), best)
    ensures NoBetterAncestors(g, todo, best.feerate)
  {
    hide NoBetterAncestors, Excess, SetRate, AncestorSet;
    best := ancFinder.FindCandidateSet();
    FoundAncestors(g, todo, best.feerate);
    if old_ != [] {
      AllSized(g, old_);
      FirstChunkFacts(g, todo, old_);
    }
    NoChunksLeft(g, old_, OldTodo(old_, todo));
    if chunking.NumChunksLeft() > 0 {
      var prefix := chunking.GetChunk(0);
      assert prefix == chunking.chunks[chunking.skip..][0];
      SetRatePositive(g, prefix.transactions);
      SetRatePositive(g, best.transactions);
      BetterMeans(best.feerate, prefix.feerate);
      AtLeastExcess(best.feerate, prefix.feerate);
      AtLeastExcess(prefix.feerate, prefix.feerate);
      Self(prefix.feerate);
      if !prefix.feerate.IsEmpty() && !best.feerate.Better(prefix.feerate) {
        StillNotBetter(g, todo, best.feerate, prefix.feerate);
        best := prefix;
      }
    }
  }

  /** No remaining ancestor set is better than a rate. */
  ghost predicate NoBetterAncestors(g: Cluster, todo: set<nat>, rate: FeeFrac) {
    forall i | i in todo :: !SetRate(g, AncestorSet(g, todo, i)).Better(rate)
  }

  lemma FoundAncestors(g: Cluster, todo: set<nat>, rate: FeeFrac)
    requires forall i | i in todo :: !SetRate(g, AncestorSet(g, todo, i)).Better(rate)
    ensures NoBetterAncestors(g, todo, rate)
  {
  }

  lemma StillNotBetter(g: Cluster, todo: set<nat>, a: FeeFrac, b: FeeFrac)
    requires g.Valid() && todo <= g.used && a.size > 0 && b.size > 0 && !a.Better(b) && NoBetterAncestors(g, todo, a)
    ensures NoBetterAncestors(g, todo, b)
  {
    hide SetRate;
    forall i | i in todo ensures !SetRate(g, AncestorSet(g, todo, i)).Better(b) {
      assert i in AncestorSet(g, todo, i);
      SetRatePositive(g, AncestorSet(g, todo, i));
      NotBetterTransitive(SetRate(g, AncestorSet(g, todo, i)), a, b);
    }
  }

  /** All the state of the loop agrees on what remains. */
  ghost predicate Tracking(g: Cluster, todo: set<nat>, old_: seq<nat>, ancFinder: AncestorCandidateFinder,
                           srcFinder: SearchCandidateFinder?, chunking: LinearizationChunking)
    reads ancFinder, srcFinder, chunking
  {
    && ancFinder.Valid() && ancFinder.depgraph == g && ancFinder.todo == todo
    && (srcFinder != null ==> srcFinder.Valid() && srcFinder.original == g && srcFinder.Left() == todo)
    && Tracks(chunking, g, old_, OldTodo(old_, todo))
  }

  /** Update the state to reflect that `s` is no longer to be linearized. */
  method MarkAllDone(g: Cluster, ghost todo: set<nat>, ghost old_: seq<nat>, ancFinder: AncestorCandidateFinder,
                     srcFinder: SearchCandidateFinder?, chunking: LinearizationChunking, s: set<nat>)
    returns (allDone: bool)
    requires Tracking(g, todo, old_, ancFinder, srcFinder, chunking) && s != {} && s <= todo
    modifies ancFinder, srcFinder, chunking
    ensures allDone <==> todo - s == {}
    ensures !allDone ==> Tracking(g, todo - s, old_, ancFinder, srcFinder, chunking)
  {
    ancFinder.MarkDone(s);
    allDone := ancFinder.todo == {};
    if !allDone {
      if srcFinder != null {
        srcFinder.MarkDone(s);
      }
      NoChunksLeft(g, old_, chunking.todo);
      if chunking.NumChunksLeft() > 0 {
        chunking.MarkDone(s);
      }
    }
  }

  /** A number of steps from which on every round's search runs to its end, if so many transactions remain. */
  function Enough(n: nat): nat {
    if n == 0 then 0 else (n + 3) / 4 + 2 * Cost(n) + 1 + Enough(n - 1)
  }

  ghost predicate HasEnough(iterations: nat, n: int) {
    n >= 0 ==> iterations >= Enough(n)
  }

  lemma {:induction false} EnoughMonotone(m: nat, n: nat)
    requires m <= n
    ensures Enough(m) <= Enough(n)
  {
    if m < n {
      EnoughMonotone(m, n - 1);
    }
  }

  /** With enough steps left, half of them is more than a search needs, and enough are left after it. */
  lemma EnoughForRound(n: nat, iterations: nat, base: nat)
    requires n > 0 && HasEnough(iterations, n) && base == (n + 3) / 4
    ensures iterations > base && (iterations - base + 1) / 2 > Cost(n)
  {
  }

  lemma EnoughAfterRound(n: nat, iterations: nat, base: nat, done: nat)
    requires n > 0 && HasEnough(iterations, n) && base == (n + 3) / 4 && done <= Cost(n)
    ensures done <= iterations - base && HasEnough(iterations - base - done, n - 1)
  {
  }

  /** Search for a better set, with up to half of the steps that are left. */
  method SearchNow(g: Cluster, todo: set<nat>, old_: seq<nat>, srcFinder: SearchCandidateFinder, first: SetInfo, iterations: nat, coin: nat -> bool)
    returns (best: SetInfo, doneNow: nat, maxNow: nat, iterationsLeft: nat)
    requires g.Valid() && todo != {} && todo <= g.used && (old_ == [] || Linearizes(g, g.used, old_))
    requires srcFinder.Valid() && srcFinder.original == g && srcFinder.Left() == todo
    requires GoodBest(g, todo, first) && (old_ != [] ==> AtLeastFirstChunk(g, Chunks(g, Filter(old_, todo)), first))
    ensures GoodBest(g, todo, best) && iterationsLeft <= iterations && doneNow <= maxNow
    ensures old_ != [] ==> AtLeastFirstChunk(g, Chunks(g, Filter(old_, todo)), best)
    ensures doneNow < maxNow ==> forall b :: !Beats(g, todo, best.feerate, b)
    ensures HasEnough(iterations, |todo|) ==> doneNow < maxNow && HasEnough(iterationsLeft, |todo| - 1)
  {
    hide *;
    best, doneNow, maxNow, iterationsLeft := first, 0, 0, iterations;
    var baseIterations := (|todo| + 3) / 4;
    if HasEnough(iterations, |todo|) {
      EnoughForRound(|todo|, iterations, baseIterations);
    }
    if iterationsLeft > baseIterations {
      iterationsLeft := iterationsLeft - baseIterations;
      maxNow := (iterationsLeft + 1) / 2;
      SomethingLeft(srcFinder);
      GoodFacts(g, todo, first);
      best, doneNow := srcFinder.FindCandidateSet(maxNow, first, coin);
      iterationsLeft := iterationsLeft - doneNow;
      assert doneNow <= Cost(|todo|);
      if HasEnough(iterations, |todo|) {
        EnoughAfterRound(|todo|, iterations, baseIterations, doneNow);
      }
      if old_ != [] {
        StillAtLeastFirst(g, todo, old_, first, best);
      }
    }
  }

  lemma SomethingLeft(srcFinder: SearchCandidateFinder)
    requires srcFinder.Valid() && srcFinder.Left() != {}
    ensures srcFinder.todo != {}
  {
  }

  lemma GoodFacts(g: Cluster, todo: set<nat>, best: SetInfo)
    requires GoodBest(g, todo, best)
    ensures best != NOTHING && best.transactions != {} && best.transactions <= todo
  {
    hide SetRate;
  }

  lemma TrackingFacts(g: Cluster, todo: set<nat>, old_: seq<nat>, ancFinder: AncestorCandidateFinder,
                      srcFinder: SearchCandidateFinder?, chunking: LinearizationChunking)
    requires Tracking(g, todo, old_, ancFinder, srcFinder, chunking) && g.Valid()
    ensures ancFinder.todo == todo && g.Consistent() && g.Acyclic()
  {
  }

  /** One choice of the next set to output.  It is topologically valid, at least as good a start as what
      remains of the old linearization, and of maximal feerate if `exact`. */
  method NextSet(g: Cluster, todo: set<nat>, old_: seq<nat>, ancFinder: AncestorCandidateFinder,
                 srcFinder: SearchCandidateFinder?, chunking: LinearizationChunking, iterations: nat, coin: nat -> bool)
    returns (best: SetInfo, exact: bool, iterationsLeft: nat)
    requires g.Valid() && todo != {} && todo <= g.used && (old_ == [] || Linearizes(g, g.used, old_))
    requires Tracking(g, todo, old_, ancFinder, srcFinder, chunking)
    ensures GoodBest(g, todo, best) && iterationsLeft <= iterations
    ensures old_ != [] ==> Gatherable(g, Chunks(g, Filter(old_, todo)), best.transactions)
    ensures exact ==> forall b :: !Beats(g, todo, best.feerate, b)
    ensures srcFinder != null && HasEnough(iterations, |todo|) ==> exact && HasEnough(iterationsLeft, |todo| - 1)
  {
    hide HasEnough;
    best := InitialBest(g, todo, old_, ancFinder, chunking);
    iterationsLeft := iterations;
    var doneNow, maxNow := 0, 0;
    if srcFinder != null {
      best, doneNow, maxNow, iterationsLeft := SearchNow(g, todo, old_, srcFinder, best, iterations, coin);
    }
    exact := doneNow != maxNow;
    if !exact {
      NoChunksLeft(g, old_, OldTodo(old_, todo));
      if chunking.NumChunksLeft() > 0 {
        ghost var whole := best;
        best := chunking.IntersectPrefixes(best);
        FilterTopological(g, old_, todo);
        SpecFacts(g, old_, todo, chunking.Spec());
        PrefixPartClosed(g, Filter(old_, todo), chunking.Spec(), whole.transactions, best.transactions);
      }
    } else if old_ != [] {
      MaximalIsGatherable(g, todo, old_, best.transactions);
    }
  }

  lemma StillAtLeastFirst(g: Cluster, todo: set<nat>, old_: seq<nat>, first: SetInfo, best: SetInfo)
    requires g.Valid() && todo <= g.used && Linearizes(g, g.used, old_) && todo != {}
    requires GoodBest(g, todo, first) && GoodBest(g, todo, best) && NoWorseBest(first, best)
    requires AtLeastFirstChunk(g, Chunks(g, Filter(old_, todo)), first)
    ensures AtLeastFirstChunk(g, Chunks(g, Filter(old_, todo)), best)
  {
    AllSized(g, old_);
    FirstChunkFacts(g, todo, old_);
    var c := Chunks(g, Filter(old_, todo))[0];
    SetRatePositive(g, first.transactions);
    SetRatePositive(g, best.transactions);
    SetRatePositive(g, Elems(c));
    BetterMeans(best.feerate, first.feerate);
    AtLeastExcess(best.feerate, first.feerate);
    AtLeastTransitive(best.feerate, first.feerate, SeqRate(g, c));
  }

  /** Setting up the search counts as n^2/64 steps, rounded up. */
  method SetupCost(n: nat, iterations: nat) returns (left: nat, affordable: bool)
    ensures affordable <==> iterations > (n * n + 63) / 64
    ensures left == if affordable then iterations - (n * n + 63) / 64 else iterations
    ensures left <= iterations
  {
    var startIterations := (n * n + 63) / 64;
    affordable := iterations > startIterations;
    left := if affordable then iterations - startIterations else iterations;
  }

  /** The state before the loop.  The search is only set up if its cost leaves some steps. */
  method StartFinders(g: Cluster, maxIterations: nat, old_: seq<nat>)
    returns (ancFinder: AncestorCandidateFinder, srcFinder: SearchCandidateFinder?, chunking: LinearizationChunking, iterationsLeft: nat)
    requires g.Valid() && (old_ == [] || Linearizes(g, g.used, old_))
    ensures fresh(ancFinder) && fresh(chunking) && (srcFinder != null ==> fresh(srcFinder))
    ensures Tracking(g, g.used, old_, ancFinder, srcFinder, chunking)
    ensures iterationsLeft <= maxIterations
    ensures var start := (|g.used| * |g.used| + 63) / 64;
            maxIterations > start ==> srcFinder != null && iterationsLeft == maxIterations - start
  {
    ancFinder := new AncestorCandidateFinder(g);
    srcFinder := null;
    var search;
    iterationsLeft, search := SetupCost(|g.used|, maxIterations);
    if search {
      srcFinder := new SearchCandidateFinder(g);
    }
    if old_ != [] {
      AllSized(g, old_);
    }
    chunking := new LinearizationChunking(g, old_);
  }

  /** One round: choose a set, append it to the output in topological order, and mark it done. */
  method LinearizeRound(g: Cluster, old_: seq<nat>, ancFinder: AncestorCandidateFinder, srcFinder: SearchCandidateFinder?,
                        chunking: LinearizationChunking, ret: seq<nat>, optimal: bool, iterations: nat, coin: nat -> bool,
                        ghost todo: set<nat>)
    returns (out: seq<nat>, stillOptimal: bool, iterationsLeft: nat, allDone: bool, ghost left: set<nat>)
    requires g.Valid() && (old_ == [] || Linearizes(g, g.used, old_)) && todo != {} && todo <= g.used
    requires Tracking(g, todo, old_, ancFinder, srcFinder, chunking) && LinearizedSoFar(g, todo, ret, old_, optimal)
    modifies ancFinder, srcFinder, chunking
    ensures LinearizedSoFar(g, left, out, old_, stillOptimal) && iterationsLeft <= iterations
    ensures left <= todo && (allDone <==> left == {})
    ensures srcFinder != null && optimal && HasEnough(iterations, |todo|) ==> stillOptimal && HasEnough(iterationsLeft, |left|)
    ensures !allDone ==> |left| < |todo| && Tracking(g, left, old_, ancFinder, srcFinder, chunking)
  {
    hide *;
    TrackingFacts(g, todo, old_, ancFinder, srcFinder, chunking);
    var best, exact;
    best, exact, iterationsLeft := NextSet(g, ancFinder.todo, old_, ancFinder, srcFinder, chunking, iterations, coin);
    GoodFacts(g, todo, best);
    assert srcFinder != null && HasEnough(iterations, |todo|) ==> exact && HasEnough(iterationsLeft, |todo| - 1);
    out := AppendTopo(g, ret, best.transactions);
    LinearizeOutput(g, todo, ret, old_, optimal, exact, best, out);
    stillOptimal := optimal && exact;
    left := todo - best.transactions;
    FewerLeft(todo, best.transactions, left, iterationsLeft);
    allDone := MarkAllDone(g, todo, old_, ancFinder, srcFinder, chunking, best.transactions);
  }

  lemma FewerLeft(todo: set<nat>, s: set<nat>, left: set<nat>, iterations: nat)
    requires s != {} && s <= todo && left == todo - s
    ensures |left| < |todo| && (HasEnough(iterations, |todo| - 1) ==> HasEnough(iterations, |left|))
  {
    SmallerSubset(left, todo);
    EnoughMonotone(|left|, |todo| - 1);
  }

  /** Enough steps to set up the search and for all rounds. */
  ghost predicate Affordable(g: Cluster, maxIterations: nat) {
    maxIterations >= (|g.used| * |g.used| + 63) / 64 + Enough(|g.used|)
  }

  lemma AffordableStart(g: Cluster, maxIterations: nat)
    requires g.used != {} && Affordable(g, maxIterations)
    ensures var start := (|g.used| * |g.used| + 63) / 64; maxIterations > start && HasEnough(maxIterations - start, |g.used|)
  {
  }

  /** Find or improve a linearization for a cluster.  The coins of round r decide the swaps of the
      r-th search. */
  method Linearize(g: Cluster, maxIterations: nat, coins: nat -> nat -> bool, oldLinearization: seq<nat>)
    returns (linearization: seq<nat>, optimal: bool, iterations: nat)
    requires g.Valid() && (oldLinearization == [] || Linearizes(g, g.used, oldLinearization))
    ensures Linearizes(g, g.used, linearization)
    ensures oldLinearization != [] ==> Dominates(g, linearization, oldLinearization)
    ensures optimal ==> forall other | Linearizes(g, g.used, other) :: Dominates(g, linearization, other)
    ensures iterations <= maxIterations
    ensures Affordable(g, maxIterations) ==> optimal
  {
    hide *;
    LinearizeStart(g, oldLinearization);
    if g.used == {} {
      LinearizeEnd(g, [], oldLinearization, true);
      return [], true, 0;
    }
    linearization := [];
    optimal := true;
    var ancFinder, srcFinder, oldChunking;
    var iterationsLeft: nat;
    ancFinder, srcFinder, oldChunking, iterationsLeft := StartFinders(g, maxIterations, oldLinearization);
    ghost var todo := g.used;
    if Affordable(g, maxIterations) {
      AffordableStart(g, maxIterations);
    }
    var round := 0;
    while true
      invariant fresh(ancFinder) && fresh(oldChunking) && (srcFinder != null ==> fresh(srcFinder))
      invariant Tracking(g, todo, oldLinearization, ancFinder, srcFinder, oldChunking)
      invariant todo != {} && todo <= g.used && LinearizedSoFar(g, todo, linearization, oldLinearization, optimal)
      invariant iterationsLeft <= maxIterations
      invariant Affordable(g, maxIterations) ==> srcFinder != null && optimal && HasEnough(iterationsLeft, |todo|)
      decreases |todo|
    {
      var allDone;
      linearization, optimal, iterationsLeft, allDone, todo :=
        LinearizeRound(g, oldLinearization, ancFinder, srcFinder, oldChunking, linearization, optimal, iterationsLeft, coins(round), todo);
      round := round + 1;
      if allDone {
        break;
      }
    }
    LinearizeEnd(g, linearization, oldLinearization, optimal);
    iterations := maxIterations - iterationsLeft;
  }
}
