/** SearchCandidateFinder (src/cluster_linearize.h): the search on a copy of the cluster whose
    transactions are renumbered by decreasing feerate. */
module SearchFinders {
  import opened FeeFracs
  import opened Positions
  import opened Clusters
  import opened DepGraphs
  import opened LinearizationChunkings
  import opened AncestorFinders
  import opened SearchBounds
  import opened Searching
  import opened SearchLoops

  // ----- sorting

  /** No transaction of `s` has a better fraction than `best`. */
  ghost predicate NoBetterRate(g: Cluster, s: set<nat>, best: nat) {
    forall i | i in s :: !g.Rate(i).Better(g.Rate(best))
  }

  method BestTransaction(g: Cluster, s: set<nat>) returns (best: nat)
    requires g.Sized() && s <= g.used && s != {}
    ensures best in s && NoBetterRate(g, s, best)
  {
    best := First(s);
    var rest := s;
    while rest != {}
      invariant rest <= s && best in s
      invariant NoBetterRate(g, s - rest, best)
    {
      var i := First(rest);
      rest := rest - {i};
      if g.Rate(i).Better(g.Rate(best)) {
        forall k | k in s - rest ensures !g.Rate(k).Better(g.Rate(i)) {
          if k != i {
            BetterTransitive(g.Rate(k), g.Rate(best), g.Rate(i));
          }
        }
        best := i;
      }
    }
  }

  ghost predicate SortedRates(g: Cluster, s: seq<nat>) {
    forall i, j | 0 <= i < j < |s| :: !g.Rate(s[j]).Better(g.Rate(s[i]))
  }

  ghost predicate PartlySortedRates(g: Cluster, s: seq<nat>, rest: set<nat>) {
    && NoDup(s) && Elems(s) == g.used - rest && SortedRates(g, s)
    && forall i, b | 0 <= i < |s| && b in rest :: !g.Rate(b).Better(g.Rate(s[i]))
  }

  /** All transactions, in the order of decreasing feerate. */
  method SortByFeerate(g: Cluster) returns (s: seq<nat>)
    requires g.Sized()
    ensures NoDup(s) && Elems(s) == g.used && SortedRates(g, s) && |s| == |g.used|
  {
    s := [];
    var rest := g.used;
    while rest != {}
      invariant rest <= g.used && PartlySortedRates(g, s, rest)
    {
      var best := BestTransaction(g, rest);
      SortStep(g, s, rest, best);
      s := s + [best];
      rest := rest - {best};
    }
    NoDupSize(s);
  }

  lemma SortStep(g: Cluster, s: seq<nat>, rest: set<nat>, best: nat)
    requires rest <= g.used && PartlySortedRates(g, s, rest) && best in rest && NoBetterRate(g, rest, best)
    ensures PartlySortedRates(g, s + [best], rest - {best})
  {
    ElemsConcat(s, [best]);
    ElemsOne(best);
    NoDupConcat(s, [best]);
  }

  /** The inverse of a sequence without duplicates, as a table of the given size. */
  method Inverse(s: seq<nat>, size: nat) returns (r: seq<nat>)
    requires NoDup(s) && forall k | 0 <= k < |s| :: s[k] < size
    ensures |r| == size && forall k | 0 <= k < |s| :: r[s[k]] == k
  {
    r := seq(size, _ => 0);
    for i := 0 to |s|
      invariant |r| == size && forall k | 0 <= k < i :: r[s[k]] == k
    {
      r := r[s[i] := i];
    }
  }

  // ----- renumbering

  /** The two tables are inverse to each other and turn `g` into `sorted`. */
  ghost predicate Renumbered(g: Cluster, sorted: Cluster, toOriginal: seq<nat>, toSorted: seq<nat>) {
    && g.Valid() && Isomorphic(g, toSorted, sorted) && sorted.used == Fill(|toOriginal|)
    && (forall k | 0 <= k < |toOriginal| :: toOriginal[k] in g.used && toOriginal[k] < |toSorted| && toSorted[toOriginal[k]] == k)
    && (forall i | i in g.used :: i < |toSorted| && toSorted[i] < |toOriginal| && toOriginal[toSorted[i]] == i)
  }

  lemma RenumberedSearchable(g: Cluster, sorted: Cluster, toOriginal: seq<nat>, toSorted: seq<nat>)
    requires Renumbered(g, sorted, toOriginal, toSorted) && sorted.Consistent() && SortedRates(g, toOriginal)
    ensures Searchable(sorted, sorted.used)
  {
    forall x | x in sorted.used ensures x == toSorted[toOriginal[x]] && toOriginal[x] in g.used {
    }
    forall x, y | x in sorted.used && y in sorted.used && x in sorted.Anc(y) && y in sorted.Anc(x) ensures x == y {
      assert toOriginal[x] in g.Anc(toOriginal[y]) && toOriginal[y] in g.Anc(toOriginal[x]);
    }
    forall x | x in sorted.used ensures sorted.Rate(x) == g.Rate(toOriginal[x]) && sorted.Rate(x).size > 0 {
      assert sorted.Rate(toSorted[toOriginal[x]]) == g.Rate(toOriginal[x]);
    }
    forall x, y | x in sorted.used && y in sorted.used && x < y ensures AtLeast(sorted.Rate(x), sorted.Rate(y)) {
      var a, b := sorted.Rate(x), sorted.Rate(y);
      assert !g.Rate(toOriginal[y]).Better(g.Rate(toOriginal[x]));
      BetterMeans(b, a);
      AtLeastExcess(a, b);
    }
  }

  lemma {:induction false} ImageRate(g: Cluster, sorted: Cluster, toSorted: seq<nat>, s: set<nat>)
    requires Injective(toSorted, s) && forall i | i in s :: sorted.Rate(toSorted[i]) == g.Rate(i)
    ensures SetRate(sorted, Image(toSorted, s)) == SetRate(g, s)
  {
    if s == {} {
      assert Image(toSorted, s) == {};
    } else {
      var x :| x in s;
      var t := s - {x};
      ImageRemove(toSorted, s, x);
      calc {
        SetRate(sorted, Image(toSorted, s));
        { SetRateRemove(sorted, Image(toSorted, s), toSorted[x]); }
        sorted.Rate(toSorted[x]).Plus(SetRate(sorted, Image(toSorted, t)));
        { ImageRate(g, sorted, toSorted, t); }
        g.Rate(x).Plus(SetRate(g, t));
        { SetRateRemove(g, s, x); }
        SetRate(g, s);
      }
    }
  }

  lemma ImageRemove(mapping: seq<nat>, s: set<nat>, x: nat)
    requires Injective(mapping, s) && x in s
    ensures mapping[x] in Image(mapping, s)
    ensures Image(mapping, s) - {mapping[x]} == Image(mapping, s - {x})
  {
  }

  ghost predicate SameAncestry(g: Cluster, sorted: Cluster, toSorted: seq<nat>, todo: set<nat>) {
    && Injective(toSorted, todo)
    && forall i, j | i in todo && j in todo :: toSorted[j] in sorted.Anc(toSorted[i]) <==> j in g.Anc(i)
  }

  lemma ImageClosed(g: Cluster, sorted: Cluster, toSorted: seq<nat>, todo: set<nat>, s: set<nat>)
    requires SameAncestry(g, sorted, toSorted, todo) && s <= todo
    ensures Closed(g, todo, s) <==> Closed(sorted, Image(toSorted, todo), Image(toSorted, s))
  {
    ImageClosedForth(g, sorted, toSorted, todo, s);
    var t, u := Image(toSorted, todo), Image(toSorted, s);
    if Closed(sorted, t, u) {
      forall i, j | i in s && j in g.Anc(i) && j in todo ensures j in s {
        assert toSorted[j] in sorted.Anc(toSorted[i]) && toSorted[j] in t && toSorted[i] in u;
        var k :| k in s && toSorted[k] == toSorted[j];
      }
    }
  }

  lemma ImageClosedForth(g: Cluster, sorted: Cluster, toSorted: seq<nat>, todo: set<nat>, s: set<nat>)
    requires SameAncestry(g, sorted, toSorted, todo) && s <= todo
    ensures Closed(g, todo, s) ==> Closed(sorted, Image(toSorted, todo), Image(toSorted, s))
  {
    var t, u := Image(toSorted, todo), Image(toSorted, s);
    if Closed(g, todo, s) {
      forall x, y | x in u && y in sorted.Anc(x) && y in t ensures y in u {
        var i :| i in s && toSorted[i] == x;
        var j :| j in todo && toSorted[j] == y;
        assert j in g.Anc(i);
      }
    }
  }

  lemma ImageInverse(g: Cluster, sorted: Cluster, toOriginal: seq<nat>, toSorted: seq<nat>, s: set<nat>)
    requires Renumbered(g, sorted, toOriginal, toSorted)
    ensures s <= g.used ==> Image(toSorted, s) <= sorted.used && Image(toOriginal, Image(toSorted, s)) == s
    ensures s <= sorted.used ==> Image(toOriginal, s) <= g.used && Image(toSorted, Image(toOriginal, s)) == s
  {
    if s <= g.used {
      forall i | i in s ensures i in Image(toOriginal, Image(toSorted, s)) {
        assert toSorted[i] in Image(toSorted, s);
      }
    }
    if s <= sorted.used {
      forall i | i in s ensures i in Image(toSorted, Image(toOriginal, s)) {
        assert toOriginal[i] in Image(toOriginal, s);
      }
    }
  }

  /** Sort the transactions and compute the renumbered cluster. */
  method Renumber(g: Cluster) returns (order: seq<nat>, inverse: seq<nat>, sorted: Cluster)
    requires g.Valid()
    ensures Renumbered(g, sorted, order, inverse) && Searchable(sorted, sorted.used)
    ensures Image(order, sorted.used) == g.used
  {
    order := SortByFeerate(g);
    ElemsInUsed(g, order);
    inverse := Inverse(order, |g.entries|);
    InverseFacts(g, order, inverse);
    var graph := new DepGraph.Remap(|order|, g, inverse, |order|);
    sorted := graph.View();
    RenumberedFacts(g, sorted, order, inverse);
    RenumberedSearchable(g, sorted, order, inverse);
    ImageInverse(g, sorted, order, inverse, g.used);
  }

  class SearchCandidateFinder {
    ghost const original: Cluster
    const sortedToOriginal: seq<nat>
    const originalToSorted: seq<nat>
    const sortedDepgraph: Cluster
    var todo: set<nat>

    ghost predicate Valid()
      reads this
    {
      && Renumbered(original, sortedDepgraph, sortedToOriginal, originalToSorted)
      && Searchable(sortedDepgraph, sortedDepgraph.used) && todo <= sortedDepgraph.used
    }

    /** What remains, in original positions. */
    ghost function Left(): set<nat>
      reads this
      requires Valid()
    {
      Image(sortedToOriginal, todo)
    }

    constructor (depgraph: Cluster)
      requires depgraph.Valid()
      ensures Valid() && original == depgraph && Left() == depgraph.used
    {
      original := depgraph;
      var order, inverse, g := Renumber(depgraph);
      sortedToOriginal, originalToSorted, sortedDepgraph := order, inverse, g;
      todo := g.used;
    }

    method MarkDone(done: set<nat>)
      requires Valid() && done != {} && done <= Left()
      modifies this
      ensures Valid() && Left() == old(Left()) - done
    {
      ImageInverse(original, sortedDepgraph, sortedToOriginal, originalToSorted, todo);
      ImageInverse(original, sortedDepgraph, sortedToOriginal, originalToSorted, done);
      ImageMinus(sortedToOriginal, todo, Image(originalToSorted, done), sortedDepgraph.used);
      todo := todo - Image(originalToSorted, done);
    }

    /** Find a high-feerate topologically valid subset of what remains. */
    method FindCandidateSet(maxIterations: nat, given: SetInfo, coin: nat -> bool) returns (best: SetInfo, iterations: nat)
      requires Valid() && todo != {}
      requires given == NOTHING || GoodBest(original, Left(), given)
      ensures GoodBest(original, Left(), best)
      ensures given != NOTHING ==> NoWorseBest(given, best)
      ensures iterations <= maxIterations && iterations <= Cost(|Left()|)
      ensures iterations < maxIterations ==> forall b :: !Beats(original, Left(), best.feerate, b)
    {
      ImageSize(sortedToOriginal, todo, sortedDepgraph.used);
      if given != NOTHING {
        ToSorted(original, sortedDepgraph, sortedToOriginal, originalToSorted, todo, given);
        ImageInverse(original, sortedDepgraph, sortedToOriginal, originalToSorted, given.transactions);
      }
      var start := SetInfo(Image(originalToSorted, given.transactions), given.feerate);
      var found: SetInfo;
      ghost var splits;
      found, iterations, splits := FindBest(sortedDepgraph, todo, maxIterations, start, coin);
      best := SetInfo(Image(sortedToOriginal, found.transactions), found.feerate);
      ToOriginal(original, sortedDepgraph, sortedToOriginal, originalToSorted, todo, found);
      if iterations < maxIterations {
        forall b ensures !Beats(original, Left(), best.feerate, b) {
          BeatsSorted(original, sortedDepgraph, sortedToOriginal, originalToSorted, todo, best.feerate, b);
        }
      }
    }
  }

  lemma {:induction false} ImageSize(mapping: seq<nat>, s: set<nat>, domain: set<nat>)
    requires s <= domain && (forall i | i in domain :: i < |mapping|)
    requires forall i, j | i in domain && j in domain && mapping[i] == mapping[j] :: i == j
    ensures |Image(mapping, s)| == |s|
    decreases |s|
  {
    if s == {} {
      assert Image(mapping, s) == {};
    } else {
      var x :| x in s;
      ImageSize(mapping, s - {x}, domain);
      assert Image(mapping, s) == Image(mapping, s - {x}) + {mapping[x]};
    }
  }

  lemma ElemsInUsed(g: Cluster, order: seq<nat>)
    requires g.Consistent() && Elems(order) == g.used
    ensures forall k | 0 <= k < |order| :: order[k] in g.used && order[k] < |g.entries|
  {
    forall k | 0 <= k < |order| ensures order[k] in g.used {
      assert order[k] in Elems(order);
    }
  }

  lemma InverseFacts(g: Cluster, order: seq<nat>, inverse: seq<nat>)
    requires g.Consistent() && NoDup(order) && Elems(order) == g.used && |inverse| == |g.entries|
    requires forall k | 0 <= k < |order| :: order[k] in g.used && order[k] < |g.entries| && inverse[order[k]] == k
    ensures Injective(inverse, g.used)
    ensures forall i | i in g.used :: inverse[i] < |order| && order[inverse[i]] == i
  {
    forall i | i in g.used ensures inverse[i] < |order| && order[inverse[i]] == i {
      assert i in Elems(order);
      var k :| 0 <= k < |order| && order[k] == i;
    }
  }

  lemma RenumberedFacts(g: Cluster, sorted: Cluster, order: seq<nat>, inverse: seq<nat>)
    requires g.Valid() && |inverse| == |g.entries| && Isomorphic(g, inverse, sorted)
    requires forall k | 0 <= k < |order| :: order[k] in g.used && inverse[order[k]] == k
    requires forall i | i in g.used :: inverse[i] < |order| && order[inverse[i]] == i
    ensures Renumbered(g, sorted, order, inverse)
  {
    forall k | k in Fill(|order|) ensures k in sorted.used {
      assert inverse[order[k]] in Image(inverse, g.used);
    }
    assert sorted.used == Fill(|order|);
  }

  lemma ImageMinus(mapping: seq<nat>, a: set<nat>, b: set<nat>, domain: set<nat>)
    requires a <= domain && b <= domain && (forall i | i in domain :: i < |mapping|)
    requires forall i, j | i in domain && j in domain && mapping[i] == mapping[j] :: i == j
    ensures Image(mapping, a - b) == Image(mapping, a) - Image(mapping, b)
  {
  }

  lemma ToSorted(g: Cluster, sorted: Cluster, toOriginal: seq<nat>, toSorted: seq<nat>, todo: set<nat>, s: SetInfo)
    requires Renumbered(g, sorted, toOriginal, toSorted) && todo <= sorted.used
    requires GoodBest(g, Image(toOriginal, todo), s)
    ensures s.transactions <= g.used
    ensures GoodBest(sorted, todo, SetInfo(Image(toSorted, s.transactions), s.feerate))
  {
    ImageInverse(g, sorted, toOriginal, toSorted, todo);
    ImageRate(g, sorted, toSorted, s.transactions);
    ImageClosed(g, sorted, toSorted, Image(toOriginal, todo), s.transactions);
    var x :| x in s.transactions;
    assert toSorted[x] in Image(toSorted, s.transactions);
  }

  lemma ToOriginal(g: Cluster, sorted: Cluster, toOriginal: seq<nat>, toSorted: seq<nat>, todo: set<nat>, s: SetInfo)
    requires Renumbered(g, sorted, toOriginal, toSorted) && todo <= sorted.used
    requires GoodBest(sorted, todo, s)
    ensures GoodBest(g, Image(toOriginal, todo), SetInfo(Image(toOriginal, s.transactions), s.feerate))
  {
    hide SetRate;
    var t, all := Image(toOriginal, s.transactions), Image(toOriginal, todo);
    ImageInverse(g, sorted, toOriginal, toSorted, todo);
    ImageInverse(g, sorted, toOriginal, toSorted, s.transactions);
    ImageRate(g, sorted, toSorted, t);
    ImageWithin(toOriginal, s.transactions, todo);
    ImageClosed(g, sorted, toSorted, all, t);
  }

  lemma ImageWithin(mapping: seq<nat>, s: set<nat>, all: set<nat>)
    requires s <= all && forall i | i in all :: i < |mapping|
    ensures Image(mapping, s) <= Image(mapping, all) && (s != {} ==> Image(mapping, s) != {})
  {
    if s != {} {
      var x :| x in s;
      assert mapping[x] in Image(mapping, s);
    }
  }

  lemma BeatsSorted(g: Cluster, sorted: Cluster, toOriginal: seq<nat>, toSorted: seq<nat>, todo: set<nat>, best: FeeFrac, b: set<nat>)
    requires Renumbered(g, sorted, toOriginal, toSorted) && todo <= sorted.used
    requires forall c :: !Beats(sorted, todo, best, c)
    ensures !Beats(g, Image(toOriginal, todo), best, b)
  {
    if Beats(g, Image(toOriginal, todo), best, b) {
      ImageInverse(g, sorted, toOriginal, toSorted, todo);
      ToSorted(g, sorted, toOriginal, toSorted, todo, SetInfo(b, SetRate(g, b)));
      assert Beats(sorted, todo, best, Image(toSorted, b));
    }
  }
}
