/** The work loop and the starting queue of SearchCandidateFinder::FindCandidateSet
    (src/cluster_linearize.h). */
module SearchLoops {
  import opened FeeFracs
  import opened Positions
  import opened Clusters
  import opened DepGraphs
  import opened Chunkings
  import opened LinearizationChunkings
  import opened SearchBounds
  import opened Searching

  // ----- the work that is left, independently of any limit on the number of steps

  function Cost(n: nat): (c: nat)
    ensures c > 0
  {
    if n == 0 then 1 else 2 * Cost(n - 1) + 1
  }

  function Work(queue: seq<WorkItem>): nat {
    if queue == [] then 0 else Cost(|queue[0].und|) + Work(queue[1..])
  }

  lemma {:induction false} CostMonotone(m: nat, n: nat)
    requires m <= n
    ensures Cost(m) <= Cost(n)
  {
    if m < n {
      CostMonotone(m, n - 1);
    }
  }

  lemma {:induction false} WorkConcat(a: seq<WorkItem>, b: seq<WorkItem>)
    ensures Work(a + b) == Work(a) + Work(b)
  {
    if a == [] {
      assert a + b == b;
    } else {
      assert (a + b)[1..] == a[1..] + b;
      WorkConcat(a[1..], b);
    }
  }

  lemma {:induction false} WorkBelow(q: seq<WorkItem>, n: nat)
    requires n > 0
    requires forall k | 0 <= k < |q| :: |q[k].und| < n
    ensures Work(q) <= |q| * Cost(n - 1)
  {
    hide Cost;
    if q != [] {
      WorkBelow(q[1..], n);
      CostMonotone(|q[0].und|, n - 1);
      OneMore(|q| - 1, Cost(n - 1));
    }
  }

  lemma OneMore(n: nat, c: nat)
    ensures n * c + c == (n + 1) * c && (n <= 1 ==> (n + 1) * c <= 2 * c)
  {
  }

  /** Replacing an item by at most two with fewer undecided transactions leaves less work. */
  lemma SplitLessWork(q: seq<WorkItem>, w: WorkItem, r: seq<WorkItem>)
    requires q <= r && |r| <= |q| + 2 && w.und != {}
    requires forall k | |q| <= k < |r| :: |r[k].und| < |w.und|
    ensures Work(r) < Work(q) + Cost(|w.und|)
  {
    hide Work;
    var new_ := r[|q|..];
    assert r == q + new_;
    WorkConcat(q, new_);
    WorkBelow(new_, |w.und|);
    if new_ != [] {
      OneMore(|new_| - 1, Cost(|w.und| - 1));
    }
  }

  // ----- the queue

  /** The item at index k, and everything it gives rise to depth-first, fits in the queue. */
  ghost predicate Fits(queue: seq<WorkItem>, capacity: nat) {
    forall k | 0 <= k < |queue| :: k + |queue[k].und| <= capacity
  }

  ghost predicate Exploring(g: Cluster, todo: set<nat>, capacity: nat, st: State) {
    StateOk(g, todo, st) && NothingLost(g, todo, st) && Fits(st.queue, capacity)
  }

  /** What is left of a queue after taking an item from it. */
  ghost predicate Taken(g: Cluster, todo: set<nat>, st: State, rest: State, w: WorkItem) {
    && StateOk(g, todo, rest) && rest.best == st.best && rest.imp == st.imp
    && ItemOk(g, todo, st.best.feerate, w)
    && Work(st.queue) == Work(rest.queue) + Cost(|w.und|)
    && forall b | QueueOffers(g, todo, st.queue, b) :: QueueOffers(g, todo, rest.queue, b) || Offers(g, todo, w, b)
  }

  lemma TakeBack(g: Cluster, todo: set<nat>, capacity: nat, st: State)
    requires Exploring(g, todo, capacity, st) && st.queue != []
    ensures var n := |st.queue| - 1;
            var rest := st.(queue := st.queue[..n]);
            && Taken(g, todo, st, rest, st.queue[n])
            && Fits(rest.queue, capacity) && n + |st.queue[n].und| <= capacity
  {
    hide Work, Cost, ItemOk, GoodBest, IsImproving, Offers, NothingLost;
    var n := |st.queue| - 1;
    var q, w := st.queue[..n], st.queue[n];
    assert st.queue == q + [w];
    WorkConcat(q, [w]);
    WorkOne(w);
    OffersSplit(g, todo, st.queue, q, [w]);
  }

  lemma TakeFront(g: Cluster, todo: set<nat>, capacity: nat, st: State)
    requires Exploring(g, todo, capacity, st) && st.queue != []
    ensures var rest := st.(queue := st.queue[1..]);
            Taken(g, todo, st, rest, st.queue[0]) && Fits(rest.queue, capacity)
  {
    hide Work, Cost, ItemOk, GoodBest, IsImproving, Offers, NothingLost;
    var q, w := st.queue[1..], st.queue[0];
    assert st.queue == [w] + q;
    WorkConcat([w], q);
    WorkOne(w);
    OffersSplit(g, todo, st.queue, [w], q);
  }

  lemma WorkOne(w: WorkItem)
    ensures Work([w]) == Cost(|w.und|)
  {
    var q := [w];
    assert Work(q[1..]) == 0;
  }

  lemma OffersSplit(g: Cluster, todo: set<nat>, queue: seq<WorkItem>, a: seq<WorkItem>, c: seq<WorkItem>)
    requires queue == a + c
    ensures forall b | QueueOffers(g, todo, queue, b) :: QueueOffers(g, todo, a, b) || QueueOffers(g, todo, c, b)
  {
    forall b | QueueOffers(g, todo, queue, b) ensures QueueOffers(g, todo, a, b) || QueueOffers(g, todo, c, b) {
      var k :| 0 <= k < |queue| && Offers(g, todo, queue[k], b);
      if k < |a| {
        assert Offers(g, todo, a[k], b);
      } else {
        assert Offers(g, todo, c[k - |a|], b);
      }
    }
  }

  /** Splitting the item taken keeps everything in order, and leaves less work. */
  lemma AfterSplit(g: Cluster, todo: set<nat>, capacity: nat, st: State, rest: State, w: WorkItem, r: State)
    requires Searchable(g, todo) && Exploring(g, todo, capacity, st) && Taken(g, todo, st, rest, w)
    requires Fits(rest.queue, capacity) && |rest.queue| + |w.und| <= capacity
    requires Split(g, todo, rest, w, r)
    ensures Exploring(g, todo, capacity, r) && Work(r.queue) < Work(st.queue)
    ensures NoWorseBest(st.best, r.best)
  {
    SplitLessWork(rest.queue, w, r.queue);
    forall b | Beats(g, todo, r.best.feerate, b) ensures QueueOffers(g, todo, r.queue, b) {
      StillBeats(g, todo, rest.best, r.best, b);
      assert QueueOffers(g, todo, st.queue, b);
      if QueueOffers(g, todo, rest.queue, b) {
        var k :| 0 <= k < |rest.queue| && Offers(g, todo, rest.queue[k], b);
        assert Offers(g, todo, r.queue[k], b);
      }
    }
    forall k | 0 <= k < |r.queue| ensures k + |r.queue[k].und| <= capacity {
      if k < |rest.queue| {
        assert r.queue[k] == rest.queue[k];
      }
    }
  }

  function Swapped(queue: seq<WorkItem>): seq<WorkItem>
    requires |queue| > 1
  {
    [queue[1], queue[0]] + queue[2..]
  }

  lemma SwappedWork(queue: seq<WorkItem>)
    requires |queue| > 1
    ensures Work(Swapped(queue)) == Work(queue)
  {
    var a, c, q := queue[0], queue[1], queue[2..];
    assert queue == [a, c] + q;
    WorkTwo(a, c, q);
    WorkTwo(c, a, q);
  }

  lemma SwappedOffers(g: Cluster, todo: set<nat>, queue: seq<WorkItem>, b: set<nat>)
    requires |queue| > 1 && QueueOffers(g, todo, queue, b)
    ensures QueueOffers(g, todo, Swapped(queue), b)
  {
    var k :| 0 <= k < |queue| && Offers(g, todo, queue[k], b);
    var m := if k == 0 then 1 else if k == 1 then 0 else k;
    assert Swapped(queue)[m] == queue[k];
  }

  /** Swapping the first two items is harmless. */
  lemma AfterSwap(g: Cluster, todo: set<nat>, capacity: nat, st: State)
    requires Exploring(g, todo, capacity, st) && |st.queue| > 1 && 2 * |todo| <= capacity
    ensures Exploring(g, todo, capacity, st.(queue := Swapped(st.queue)))
    ensures Work(Swapped(st.queue)) == Work(st.queue)
  {
    var q := Swapped(st.queue);
    SwappedWork(st.queue);
    SwappedFits(g, todo, capacity, st);
    forall b | Beats(g, todo, st.best.feerate, b) ensures QueueOffers(g, todo, q, b) {
      SwappedOffers(g, todo, st.queue, b);
    }
  }

  lemma SwappedFits(g: Cluster, todo: set<nat>, capacity: nat, st: State)
    requires Exploring(g, todo, capacity, st) && |st.queue| > 1 && 2 * |todo| <= capacity
    ensures Fits(Swapped(st.queue), capacity)
    ensures AllItemsOk(g, todo, st.best.feerate, Swapped(st.queue))
  {
    var a, c := st.queue[0], st.queue[1];
    assert ItemOk(g, todo, st.best.feerate, a) && ItemOk(g, todo, st.best.feerate, c);
    SubsetSize(a.und, todo);
    var q := Swapped(st.queue);
    forall k | 0 <= k < |q|
      ensures k + |q[k].und| <= capacity && ItemOk(g, todo, st.best.feerate, q[k])
    {
      if k > 1 {
        assert q[k] == st.queue[k];
      }
    }
  }

  lemma WorkTwo(a: WorkItem, c: WorkItem, q: seq<WorkItem>)
    ensures Work([a, c] + q) == Cost(|a.und|) + Cost(|c.und|) + Work(q)
  {
    assert [a, c] + q == [a] + ([c] + q);
    WorkConcat([a], [c] + q);
    WorkConcat([c], q);
    WorkOne(a);
    WorkOne(c);
  }

  method StepBack(g: Cluster, todo: set<nat>, capacity: nat, st: State) returns (r: State, performed: bool)
    requires Searchable(g, todo) && Exploring(g, todo, capacity, st) && st.queue != []
    ensures Exploring(g, todo, capacity, r) && Work(r.queue) < Work(st.queue) && NoWorseBest(st.best, r.best)
    ensures |r.queue| >= |st.queue| - 1
    ensures performed <==> Promising(g, st, st.queue[|st.queue| - 1])
  {
    var n := |st.queue| - 1;
    var rest := st.(queue := st.queue[..n]);
    TakeBack(g, todo, capacity, st);
    r, performed := SplitItem(g, todo, capacity, rest, st.queue[n]);
    AfterSplit(g, todo, capacity, st, rest, st.queue[n], r);
  }

  method StepFront(g: Cluster, todo: set<nat>, capacity: nat, st: State) returns (r: State, performed: bool)
    requires Searchable(g, todo) && Exploring(g, todo, capacity, st) && st.queue != []
    requires |st.queue| - 1 + |st.queue[0].und| <= capacity
    ensures Exploring(g, todo, capacity, r) && Work(r.queue) < Work(st.queue) && NoWorseBest(st.best, r.best)
    ensures performed <==> Promising(g, st, st.queue[0])
  {
    var rest := st.(queue := st.queue[1..]);
    TakeFront(g, todo, capacity, st);
    r, performed := SplitItem(g, todo, capacity, rest, st.queue[0]);
    AfterSplit(g, todo, capacity, st, rest, st.queue[0], r);
  }

  /** What a stretch of the search keeps. */
  ghost predicate Progress(g: Cluster, todo: set<nat>, capacity: nat, from: State, st: State) {
    Exploring(g, todo, capacity, st) && NoWorseBest(from.best, st.best)
  }

  lemma ProgressChain(g: Cluster, todo: set<nat>, capacity: nat, from: State, mid: State, st: State)
    requires Searchable(g, todo) && GoodBest(g, todo, from.best)
    requires Progress(g, todo, capacity, from, mid) && Progress(g, todo, capacity, mid, st)
    ensures Progress(g, todo, capacity, from, st)
  {
    BetterChain(g, todo, from.best, mid.best, st.best);
  }

  /** The work loop: from the front of the queue, with random swaps, except that items are taken from
      the back while the queue has no room for what the front could give rise to.  Each coin says
      whether the first two items are swapped.  There were `splits` promising items. */
  method Explore(g: Cluster, todo: set<nat>, capacity: nat, start: State, maxIterations: nat, coin: nat -> bool)
    returns (st: State, iterationsLeft: nat, ghost splits: nat)
    requires Searchable(g, todo) && Exploring(g, todo, capacity, start) && 2 * |todo| <= capacity
    ensures Progress(g, todo, capacity, start, st)
    ensures iterationsLeft == maxIterations - splits && (maxIterations == 0 ==> st.best == start.best)
    ensures iterationsLeft > 0 ==> st.queue == []
    ensures maxIterations - iterationsLeft + Work(st.queue) <= Work(start.queue)
  {
    st, iterationsLeft, splits := start, maxIterations, 0;
    var round := 0;
    while st.queue != []
      invariant Progress(g, todo, capacity, start, st) && iterationsLeft == maxIterations - splits
      invariant maxIterations == 0 ==> st.best == start.best
      invariant maxIterations - iterationsLeft + Work(st.queue) <= Work(start.queue)
      decreases Work(st.queue)
    {
      var before := st;
      if |st.queue| > 1 && coin(round) {
        AfterSwap(g, todo, capacity, st);
        st := st.(queue := Swapped(st.queue));
      }
      round := round + 1;
      ghost var more;
      st, iterationsLeft, more := MakeRoom(g, todo, capacity, st, iterationsLeft);
      splits := splits + more;
      ProgressChain(g, todo, capacity, start, before, st);
      if iterationsLeft == 0 {
        break;
      }
      before := st;
      if Promising(g, st, st.queue[0]) {
        splits := splits + 1;
      }
      var performed: bool;
      st, performed := StepFront(g, todo, capacity, st);
      ProgressChain(g, todo, capacity, start, before, st);
      if performed {
        iterationsLeft := iterationsLeft - 1;
      }
    }
  }

  /** The depth-first inner loop.  The queue is never empty when its front is read. */
  method MakeRoom(g: Cluster, todo: set<nat>, capacity: nat, start: State, iterations: nat)
    returns (st: State, iterationsLeft: nat, ghost splits: nat)
    requires Searchable(g, todo) && Exploring(g, todo, capacity, start) && start.queue != []
    ensures Progress(g, todo, capacity, start, st) && st.queue != []
    ensures iterationsLeft == iterations - splits && (iterations == 0 ==> st == start)
    ensures iterations - iterationsLeft + Work(st.queue) <= Work(start.queue)
    ensures iterationsLeft > 0 ==> |st.queue| - 1 + |st.queue[0].und| <= capacity
  {
    st, iterationsLeft, splits := start, iterations, 0;
    while |st.queue| - 1 + |st.queue[0].und| > capacity
      invariant Progress(g, todo, capacity, start, st) && st.queue != []
      invariant iterationsLeft == iterations - splits && (iterations == 0 ==> st == start)
      invariant iterations - iterationsLeft + Work(st.queue) <= Work(start.queue)
      decreases Work(st.queue)
    {
      if iterationsLeft == 0 {
        break;
      }
      assert |st.queue| > 1;
      var before := st;
      if Promising(g, st, st.queue[|st.queue| - 1]) {
        splits := splits + 1;
      }
      var performed: bool;
      st, performed := StepBack(g, todo, capacity, st);
      ProgressChain(g, todo, capacity, start, before, st);
      if performed {
        iterationsLeft := iterationsLeft - 1;
      }
    }
  }

  // ----- the starting queue: one item per connected component

  ghost predicate Component(g: Cluster, todo: set<nat>, c: set<nat>) {
    c <= todo && c != {} && Separated(g, todo, c)
  }

  function Start(c: set<nat>): WorkItem {
    WorkItem(NOTHING, c, EMPTY)
  }

  /** The undecided transactions of all items together. */
  ghost function Span(queue: seq<WorkItem>): set<nat> {
    if queue == [] then {} else Span(queue[..|queue| - 1]) + queue[|queue| - 1].und
  }

  /** The queue holds one starting item for each of some components, which cover all but `toCover`. */
  ghost predicate Starting(g: Cluster, todo: set<nat>, queue: seq<WorkItem>, toCover: set<nat>) {
    && toCover <= todo && Separated(g, todo, toCover)
    && Span(queue) == todo - toCover
    && (forall k | 0 <= k < |queue| :: queue[k] == Start(queue[k].und) && Component(g, todo, queue[k].und))
    && (forall k | 0 <= k < |queue| :: k + |queue[k].und| <= |todo - toCover|)
    && |queue| <= |todo - toCover| && Disjoint(queue)
  }

  ghost predicate Disjoint(queue: seq<WorkItem>) {
    forall k | 0 <= k < |queue| :: queue[k].und !! Span(queue[..k])
  }

  lemma StartingStep(g: Cluster, todo: set<nat>, queue: seq<WorkItem>, toCover: set<nat>, c: set<nat>)
    requires Starting(g, todo, queue, toCover) && c <= toCover && c != {} && Separated(g, toCover, c)
    ensures Starting(g, todo, queue + [Start(c)], toCover - c) && |toCover - c| < |toCover|
  {
    var q, left := queue + [Start(c)], toCover - c;
    assert q[..|q| - 1] == queue;
    assert forall k | 0 <= k < |queue| :: q[..k] == queue[..k];
    assert todo - left == (todo - toCover) + c;
    SmallerSubset({}, c);
    assert |todo - left| == |todo - toCover| + |c|;
    SmallerSubset(left, toCover);
    SeparatedRest(g, todo, toCover, c);
  }

  lemma SeparatedRest(g: Cluster, todo: set<nat>, toCover: set<nat>, c: set<nat>)
    requires toCover <= todo && Separated(g, todo, toCover) && c <= toCover && Separated(g, toCover, c)
    ensures Separated(g, todo, c) && Separated(g, todo, toCover - c)
  {
    forall a, b | a in toCover - c && b in todo && Related(g, a, b) ensures b in toCover - c {
      assert Related(g, b, a);
    }
  }

  method StartQueue(g: Cluster, todo: set<nat>, best: SetInfo) returns (queue: seq<WorkItem>, first: SetInfo)
    requires Searchable(g, todo) && todo != {}
    requires best == NOTHING || GoodBest(g, todo, best)
    ensures Starting(g, todo, queue, {}) && GoodBest(g, todo, first)
    ensures best != NOTHING ==> first == best
    ensures Work(queue) <= Cost(|todo|)
  {
    hide GoodBest, Starting, Work, Cost, Searchable;
    queue, first := [], best;
    NothingStarted(g, todo);
    var toCover := todo;
    while toCover != {}
      invariant Starting(g, todo, queue, toCover)
      invariant best != NOTHING ==> first == best
      invariant GoodBest(g, todo, first) || (toCover == todo && first == NOTHING)
      invariant Work(queue) <= Cost(|todo - toCover|) && (queue == [] ==> toCover == todo)
      decreases |toCover|
    {
      StartingFacts(g, todo, queue, toCover);
      SearchableFacts(g, todo);
      var component := GetConnectedComponent(g, toCover, First(toCover));
      StartingStep(g, todo, queue, toCover, component);
      StartingWork(g, todo, queue, toCover, component);
      first := FirstBest(g, todo, toCover, first, component);
      queue := queue + [Start(component)];
      toCover := toCover - component;
    }
    assert todo - toCover == todo;
  }

  lemma NothingStarted(g: Cluster, todo: set<nat>)
    ensures Starting(g, todo, [], todo) && Work([]) <= Cost(|todo - todo|)
  {
    assert todo - todo == {};
  }

  lemma SearchableFacts(g: Cluster, todo: set<nat>)
    requires Searchable(g, todo)
    ensures g.Consistent() && todo <= g.used
  {
  }

  lemma StartingFacts(g: Cluster, todo: set<nat>, queue: seq<WorkItem>, toCover: set<nat>)
    requires Starting(g, todo, queue, toCover)
    ensures toCover <= todo && Separated(g, todo, toCover)
  {
  }

  /** Searching parts separately is no more work than searching the whole. */
  lemma {:induction false} CostSum(a: nat, b: nat)
    requires a > 0 && b > 0
    ensures Cost(a) + Cost(b) <= Cost(a + b)
    decreases b
  {
    assert Cost(a) == 2 * Cost(a - 1) + 1 && Cost(a + b) == 2 * Cost(a + b - 1) + 1;
    if b > 1 {
      CostSum(a, b - 1);
    } else {
      assert Cost(1) == 2 * Cost(0) + 1;
    }
  }

  lemma StartingWork(g: Cluster, todo: set<nat>, queue: seq<WorkItem>, toCover: set<nat>, c: set<nat>)
    requires Starting(g, todo, queue, toCover) && c <= toCover && c != {} && Work(queue) <= Cost(|todo - toCover|)
    requires queue == [] ==> toCover == todo
    ensures Work(queue + [Start(c)]) <= Cost(|todo - (toCover - c)|)
  {
    hide Separated, Component, Disjoint, Span;
    WorkConcat(queue, [Start(c)]);
    WorkOne(Start(c));
    assert todo - (toCover - c) == (todo - toCover) + c;
    SmallerSubset({}, c);
    if queue == [] {
      assert todo - toCover == {};
      assert queue + [Start(c)] == [Start(c)];
    } else {
      CostSum(|todo - toCover|, |c|);
    }
  }

  /** If no best set is known, make it the component. */
  method FirstBest(g: Cluster, todo: set<nat>, ghost toCover: set<nat>, best: SetInfo, component: set<nat>) returns (r: SetInfo)
    requires Searchable(g, todo) && (best == NOTHING || GoodBest(g, todo, best))
    requires toCover <= todo && Separated(g, todo, toCover)
    requires component <= toCover && component != {} && Separated(g, toCover, component)
    ensures GoodBest(g, todo, r) && (best != NOTHING ==> r == best)
  {
    r := best;
    ClosedSized(g, todo, best.transactions * todo);
    assert best != NOTHING ==> best.transactions * todo == best.transactions;
    if best.feerate.IsEmpty() {
      var rate := FeeRate(g, component);
      r := SetInfo(component, rate);
      SeparatedRest(g, todo, toCover, component);
      ComponentClosed(g, todo, component);
    }
  }

  lemma ComponentClosed(g: Cluster, todo: set<nat>, c: set<nat>)
    requires c <= todo && Separated(g, todo, c)
    ensures Closed(g, todo, c)
  {
    forall i, j | i in c && j in g.Anc(i) && j in todo ensures j in c {
      assert Related(g, i, j);
    }
  }

  lemma ExcessOfNothing(g: Cluster, rate: FeeFrac)
    ensures Excess(rate, SetRate(g, {})) == 0
  {
  }

  /** If every part of `b` in a component is worse than `b`, then so is their union. */
  lemma {:induction false} PartsWorse(g: Cluster, b: set<nat>, queue: seq<WorkItem>)
    requires Disjoint(queue)
    requires forall k | 0 <= k < |queue| :: b * queue[k].und == {} || Excess(SetRate(g, b), SetRate(g, b * queue[k].und)) < 0
    ensures Excess(SetRate(g, b), SetRate(g, b * Span(queue))) <= 0
    ensures b * Span(queue) != {} ==> Excess(SetRate(g, b), SetRate(g, b * Span(queue))) < 0
  {
    var B := SetRate(g, b);
    ExcessOfNothing(g, B);
    if queue == [] {
      assert b * Span(queue) == {};
    } else {
      var n := |queue| - 1;
      var q, c := queue[..n], queue[n].und;
      assert forall k | 0 <= k < n :: q[..k] == queue[..k];
      PartsWorse(g, b, q);
      var x, y := b * Span(q), b * c;
      assert b * Span(queue) == x + y;
      ExcessUnion(g, B, x, y);
    }
  }

  /** One of the components offers a part of `b` that is at least as good as `b`. */
  lemma BestPart(g: Cluster, todo: set<nat>, queue: seq<WorkItem>, b: set<nat>)
    requires Searchable(g, todo) && Starting(g, todo, queue, {}) && b != {} && Closed(g, todo, b)
    ensures QueueOffers(g, todo, queue, b)
  {
    assert todo - {} == todo && b * todo == b;
    Self(SetRate(g, b));
    if forall k | 0 <= k < |queue| :: b * queue[k].und == {} || Excess(SetRate(g, b), SetRate(g, b * queue[k].und)) < 0 {
      PartsWorse(g, b, queue);
      assert false;
    }
    var k :| 0 <= k < |queue| && b * queue[k].und != {} && Excess(SetRate(g, b), SetRate(g, b * queue[k].und)) >= 0;
    PartOffered(g, todo, queue[k], b);
  }

  lemma PartOffered(g: Cluster, todo: set<nat>, w: WorkItem, b: set<nat>)
    requires w == Start(w.und) && Component(g, todo, w.und) && Closed(g, todo, b)
    requires b * w.und != {} && Excess(SetRate(g, b), SetRate(g, b * w.und)) >= 0
    ensures Offers(g, todo, w, b)
  {
    var c := b * w.und;
    forall i, j | i in c && j in g.Anc(i) && j in todo ensures j in c {
      assert Related(g, i, j);
    }
    AtLeastExcess(SetRate(g, c), SetRate(g, b));
    assert Compatible(w.inc.transactions, w.und, c);
  }

  lemma StartExploring(g: Cluster, todo: set<nat>, capacity: nat, st: State)
    requires Searchable(g, todo) && Starting(g, todo, st.queue, {}) && GoodBest(g, todo, st.best)
    requires IsImproving(g, todo, st.best.feerate, st.imp) && |todo| <= capacity
    ensures Exploring(g, todo, capacity, st)
  {
    assert todo - {} == todo;
    forall k | 0 <= k < |st.queue|
      ensures ItemOk(g, todo, st.best.feerate, st.queue[k]) && k + |st.queue[k].und| <= capacity
    {
      var c := st.queue[k].und;
      assert Component(g, todo, c);
      ComponentClosed(g, todo, c);
      assert {} + c == c;
    }
    forall b | Beats(g, todo, st.best.feerate, b) ensures QueueOffers(g, todo, st.queue, b) {
      BestPart(g, todo, st.queue, b);
    }
  }

  /** The whole search, on transactions numbered by decreasing feerate.  The result is a topologically
      valid set no worse than a given one; if fewer than the allowed number of steps were performed,
      no topologically valid set has a higher feerate. */
  method FindBest(g: Cluster, todo: set<nat>, maxIterations: nat, given: SetInfo, coin: nat -> bool)
    returns (best: SetInfo, iterations: nat, ghost splits: nat)
    requires Searchable(g, todo) && todo != {}
    requires given == NOTHING || GoodBest(g, todo, given)
    ensures GoodBest(g, todo, best) && (given != NOTHING ==> NoWorseBest(given, best))
    ensures iterations == splits <= maxIterations && iterations <= Cost(|todo|)
    ensures iterations < maxIterations ==> forall b :: !Beats(g, todo, best.feerate, b)
  {
    hide *;
    var capacity := if 256 < 2 * |todo| then 2 * |todo| else 256;
    var queue, first := StartQueue(g, todo, given);
    FirstFacts(g, todo, first);
    var imp := TrimImproving(g, todo, first.feerate);
    var start := State(queue, first, imp);
    TrimmedImproving(g, todo, first.feerate, imp);
    StartExploring(g, todo, capacity, start);
    var st, left;
    st, left, splits := Explore(g, todo, capacity, start, maxIterations, coin);
    best, iterations := st.best, maxIterations - left;
    ProgressFacts(g, todo, capacity, start, st);
  }

  lemma TrimmedImproving(g: Cluster, todo: set<nat>, best: FeeFrac, imp: set<nat>)
    requires imp <= todo && forall i | i in todo :: i in imp <==> g.Rate(i).Higher(best)
    ensures IsImproving(g, todo, best, imp)
  {
  }

  lemma FirstFacts(g: Cluster, todo: set<nat>, first: SetInfo)
    requires Searchable(g, todo) && GoodBest(g, todo, first)
    ensures g.Sized() && SortedByFeerate(g) && todo <= g.used && first.feerate.size > 0
  {
    ClosedSized(g, todo, first.transactions);
  }

  lemma ProgressFacts(g: Cluster, todo: set<nat>, capacity: nat, start: State, st: State)
    requires Progress(g, todo, capacity, start, st)
    ensures GoodBest(g, todo, st.best) && NoWorseBest(start.best, st.best)
    ensures st.queue == [] ==> forall b :: !Beats(g, todo, st.best.feerate, b)
  {
    hide Beats, Offers;
    if st.queue == [] {
      forall b ensures !Beats(g, todo, st.best.feerate, b) {
        assert Beats(g, todo, st.best.feerate, b) ==> QueueOffers(g, todo, st.queue, b);
      }
    }
  }
}
