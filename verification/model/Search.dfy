/** The branch-and-bound search over topologically valid subsets, on transactions numbered by
    decreasing feerate (the work loop of SearchCandidateFinder::FindCandidateSet in
    src/cluster_linearize.h). */
module Searching {
  import opened FeeFracs
  import opened Positions
  import opened Clusters
  import opened DepGraphs
  import opened Chunkings
  import opened LinearizationChunkings
  import opened AncestorFinders
  import opened SearchBounds

  /** Included transactions, undecided ones, and a bound on the feerate of what can come of them. */
  datatype WorkItem = WorkItem(inc: SetInfo, und: set<nat>, pot: FeeFrac)

  /** The queue of work items, the best set so far, and the transactions that beat its feerate. */
  datatype State = State(queue: seq<WorkItem>, best: SetInfo, imp: set<nat>)

  /** What the search needs of the cluster and the part of it that is left. */
  ghost predicate Searchable(g: Cluster, todo: set<nat>) {
    g.Valid() && SortedByFeerate(g) && todo <= g.used
  }

  /** A set a work item can still give rise to, topology aside. */
  ghost predicate Compatible(inc: set<nat>, und: set<nat>, b: set<nat>) {
    inc <= b <= inc + und
  }

  ghost predicate Shaped(g: Cluster, todo: set<nat>, inc: SetInfo, und: set<nat>) {
    && IsSetInfo(g, inc) && inc.transactions !! und
    && Closed(g, todo, inc.transactions) && Closed(g, todo, inc.transactions + und)
  }

  /** The potential of a work item bounds every compatible set that beats `best`. */
  ghost predicate Bounded(g: Cluster, best: FeeFrac, w: WorkItem) {
    forall b | Compatible(w.inc.transactions, w.und, b) && SetRate(g, b).Higher(best) :: AtLeast(w.pot, SetRate(g, b))
  }

  ghost predicate ItemOk(g: Cluster, todo: set<nat>, best: FeeFrac, w: WorkItem) {
    && Shaped(g, todo, w.inc, w.und) && w.und != {}
    && (if w.inc.transactions == {} then w.pot == EMPTY
        else w.pot.size > 0 && AtLeast(best, w.inc.feerate) && Bounded(g, best, w))
  }

  ghost predicate AllItemsOk(g: Cluster, todo: set<nat>, best: FeeFrac, queue: seq<WorkItem>) {
    forall k | 0 <= k < |queue| :: ItemOk(g, todo, best, queue[k])
  }

  ghost predicate GoodBest(g: Cluster, todo: set<nat>, best: SetInfo) {
    IsSetInfo(g, best) && best.transactions != {} && Closed(g, todo, best.transactions)
  }

  ghost predicate StateOk(g: Cluster, todo: set<nat>, st: State) {
    && GoodBest(g, todo, st.best) && IsImproving(g, todo, st.best.feerate, st.imp)
    && AllItemsOk(g, todo, st.best.feerate, st.queue)
  }

  /** A topologically valid set with a higher feerate than the best one. */
  ghost predicate Beats(g: Cluster, todo: set<nat>, best: FeeFrac, b: set<nat>) {
    b != {} && Closed(g, todo, b) && SetRate(g, b).Higher(best)
  }

  /** The work item can give rise to a topologically valid set that is at least as good as `b`. */
  ghost predicate Offers(g: Cluster, todo: set<nat>, w: WorkItem, b: set<nat>) {
    exists c :: Compatible(w.inc.transactions, w.und, c) && c != {} && Closed(g, todo, c)
                && AtLeast(SetRate(g, c), SetRate(g, b))
  }

  ghost predicate QueueOffers(g: Cluster, todo: set<nat>, queue: seq<WorkItem>, b: set<nat>) {
    exists k :: 0 <= k < |queue| && Offers(g, todo, queue[k], b)
  }

  /** Nothing that beats the best set has been lost. */
  ghost predicate NothingLost(g: Cluster, todo: set<nat>, st: State) {
    forall b | Beats(g, todo, st.best.feerate, b) :: QueueOffers(g, todo, st.queue, b)
  }

  lemma ClosedSized(g: Cluster, todo: set<nat>, b: set<nat>)
    requires Searchable(g, todo) && b <= todo
    ensures SizedSet(g, b) && SetRate(g, b).size >= 0 && (b != {} ==> SetRate(g, b).size > 0)
  {
    SetRatePositive(g, b);
  }

  /** The best set only gets better. */
  ghost predicate NoWorseBest(a: SetInfo, b: SetInfo) {
    a == b || b.feerate.Better(a.feerate)
  }

  lemma StillBeats(g: Cluster, todo: set<nat>, old_: SetInfo, best: SetInfo, b: set<nat>)
    requires Searchable(g, todo) && GoodBest(g, todo, old_) && GoodBest(g, todo, best)
    requires NoWorseBest(old_, best) && b <= todo && b != {}
    ensures SetRate(g, b).Higher(best.feerate) ==> SetRate(g, b).Higher(old_.feerate)
    ensures AtLeast(best.feerate, old_.feerate)
  {
    ClosedSized(g, todo, b);
    ClosedSized(g, todo, old_.transactions);
    ClosedSized(g, todo, best.transactions);
    BetterMeans(best.feerate, old_.feerate);
    AtLeastExcess(best.feerate, old_.feerate);
    AtLeastTransitive(SetRate(g, b), best.feerate, old_.feerate);
  }

  lemma BetterBestKeepsItem(g: Cluster, todo: set<nat>, old_: SetInfo, best: SetInfo, w: WorkItem)
    requires Searchable(g, todo) && GoodBest(g, todo, old_) && GoodBest(g, todo, best)
    requires NoWorseBest(old_, best) && ItemOk(g, todo, old_.feerate, w)
    ensures ItemOk(g, todo, best.feerate, w)
  {
    if w.inc.transactions != {} {
      ClosedSized(g, todo, w.inc.transactions);
      ClosedSized(g, todo, old_.transactions);
      ClosedSized(g, todo, best.transactions);
      StillBeats(g, todo, old_, best, w.inc.transactions);
      AtLeastTransitive(best.feerate, old_.feerate, w.inc.feerate);
      forall b | Compatible(w.inc.transactions, w.und, b) && SetRate(g, b).Higher(best.feerate)
        ensures AtLeast(w.pot, SetRate(g, b))
      {
        StillBeats(g, todo, old_, best, b);
      }
    }
  }

  // ----- the parts of add_fn

  /** Drop from `imp` what no longer beats the best feerate; the lowest feerates are last. */
  method TrimImproving(g: Cluster, imp: set<nat>, best: FeeFrac) returns (r: set<nat>)
    requires g.Sized() && SortedByFeerate(g) && imp <= g.used && best.size > 0
    ensures r <= imp && forall i | i in imp :: i in r <==> g.Rate(i).Higher(best)
  {
    r := imp;
    while r != {}
      invariant r <= imp
      invariant forall i | i in imp - r :: !g.Rate(i).Higher(best)
    {
      var check := Last(r);
      if g.Rate(check).Higher(best) {
        forall i | i in r ensures g.Rate(i).Higher(best) {
          if i != check {
            assert AtLeast(g.Rate(i), g.Rate(check));
            AtLeastTransitive(g.Rate(i), g.Rate(check), best);
          }
        }
        return;
      }
      r := r - {check};
    }
  }

  /** Add to `inc` every transaction of the potential all of whose ancestors are in it too. */
  method Jump(g: Cluster, todo: set<nat>, inc: set<nat>, pot: set<nat>) returns (r: set<nat>)
    requires g.Consistent() && todo <= g.used && inc <= pot <= todo && Closed(g, todo, inc)
    ensures inc <= r <= pot && Closed(g, todo, r)
    ensures forall pos | pos in pot && g.Anc(pos) * todo <= pot :: pos in r
  {
    r := inc;
    var rest := pot - inc;
    while rest != {}
      invariant rest <= pot && inc <= r <= pot && Closed(g, todo, r)
      invariant forall pos | pos in pot - rest && g.Anc(pos) * todo <= pot :: pos in r
    {
      var pos := First(rest);
      rest := rest - {pos};
      var ancTodo := g.Anc(pos) * todo;
      if ancTodo <= pot {
        AncestorSetClosed(g, todo, pos);
        ClosedUnion(g, todo, r, ancTodo);
        r := r + ancTodo;
      }
    }
  }

  lemma ClosedUnion(g: Cluster, todo: set<nat>, a: set<nat>, b: set<nat>)
    requires Closed(g, todo, a) && Closed(g, todo, b)
    ensures Closed(g, todo, a + b)
  {
  }

  /** Every compatible set that beats the best one is matched by the newly queued item. */
  ghost predicate Catches(g: Cluster, todo: set<nat>, st: State, new_: State, inc: set<nat>, und: set<nat>) {
    forall b | Beats(g, todo, new_.best.feerate, b) && Compatible(inc, und, b) ::
      |new_.queue| == |st.queue| + 1 && Offers(g, todo, new_.queue[|st.queue|], b)
  }

  /** At most one item was queued, with no more undecided transactions than given. */
  ghost predicate Queued(st: State, new_: State, und: set<nat>) {
    && st.queue <= new_.queue && |new_.queue| <= |st.queue| + 1
    && (|new_.queue| == |st.queue| + 1 ==> new_.queue[|st.queue|].und <= und)
  }

  /** What the steps of add_fn have computed for a non-empty `inc`. */
  ghost predicate Grown(g: Cluster, todo: set<nat>, st: State, inc: SetInfo, und: set<nat>, pot: SetInfo, more: SetInfo, best: SetInfo) {
    && StateOk(g, todo, st) && Shaped(g, todo, inc, und) && inc.transactions != {}
    && IsSetInfo(g, pot) && Potential(g, inc.transactions, st.imp * und, pot.transactions)
    && IsSetInfo(g, more) && inc.transactions <= more.transactions <= pot.transactions && Closed(g, todo, more.transactions)
    && GoodBest(g, todo, best) && NoWorseBest(st.best, best) && AtLeast(best.feerate, more.feerate)
  }

  /** The set that a compatible set becomes by jumping ahead. */
  lemma GrownOffers(g: Cluster, todo: set<nat>, st: State, inc: SetInfo, und: set<nat>, pot: SetInfo, more: SetInfo, best: SetInfo, b: set<nat>)
    requires Searchable(g, todo) && Grown(g, todo, st, inc, und, pot, more, best)
    requires Compatible(inc.transactions, und, b) && Beats(g, todo, best.feerate, b)
    ensures AtLeast(pot.feerate, SetRate(g, b))
    ensures Compatible(more.transactions, und - more.transactions, b + more.transactions)
    ensures Closed(g, todo, b + more.transactions) && AtLeast(SetRate(g, b + more.transactions), SetRate(g, b))
  {
    StillBeats(g, todo, st.best, best, b);
    ClosedSized(g, todo, st.best.transactions);
    ClosedSized(g, todo, todo);
    PotentialBounds(g, todo, st.best.feerate, st.imp, inc.transactions, und, pot.transactions, b);
    JumpAhead(g, inc.transactions, st.imp * und, pot.transactions, more.transactions, b);
    ClosedUnion(g, todo, b, more.transactions);
  }

  lemma GrownItemOk(g: Cluster, todo: set<nat>, st: State, inc: SetInfo, und: set<nat>, pot: SetInfo, more: SetInfo, best: SetInfo)
    requires Searchable(g, todo) && Grown(g, todo, st, inc, und, pot, more, best)
    requires pot.feerate.size != more.feerate.size
    ensures ItemOk(g, todo, best.feerate, WorkItem(more, und - more.transactions, pot.feerate))
  {
    var left := und - more.transactions;
    var w := WorkItem(more, left, pot.feerate);
    assert more.transactions + left == inc.transactions + und;
    assert pot.transactions != more.transactions;
    ClosedSized(g, todo, pot.transactions);
    forall b | Compatible(more.transactions, left, b) && SetRate(g, b).Higher(best.feerate)
      ensures AtLeast(pot.feerate, SetRate(g, b))
    {
      StillBeats(g, todo, st.best, best, b);
      ClosedSized(g, todo, st.best.transactions);
      ClosedSized(g, todo, todo);
      PotentialBounds(g, todo, st.best.feerate, st.imp, inc.transactions, und, pot.transactions, b);
    }
  }

  /** If the potential is reached, nothing compatible beats the best set. */
  lemma GrownDone(g: Cluster, todo: set<nat>, st: State, inc: SetInfo, und: set<nat>, pot: SetInfo, more: SetInfo, best: SetInfo, b: set<nat>)
    requires Searchable(g, todo) && Grown(g, todo, st, inc, und, pot, more, best)
    requires pot.feerate.size == more.feerate.size && Compatible(inc.transactions, und, b)
    ensures !Beats(g, todo, best.feerate, b)
  {
    if Beats(g, todo, best.feerate, b) {
      ClosedSized(g, todo, pot.transactions);
      ClosedSized(g, todo, best.transactions);
      ClosedSized(g, todo, b);
      SameSize(g, more.transactions, pot.transactions);
      GrownOffers(g, todo, st, inc, und, pot, more, best, b);
      AtLeastTransitive(best.feerate, more.feerate, SetRate(g, b));
    }
  }

  /** add_fn for an `inc` that is not empty: extend it and its potential. */
  method GrowItem(g: Cluster, todo: set<nat>, st: State, inc: SetInfo, und: set<nat>)
    returns (pot: SetInfo, more: SetInfo, best: SetInfo, imp: set<nat>)
    requires Searchable(g, todo) && StateOk(g, todo, st) && Shaped(g, todo, inc, und) && inc.transactions != {}
    ensures Grown(g, todo, st, inc, und, pot, more, best)
    ensures IsImproving(g, todo, best.feerate, imp)
  {
    pot := ComputePotential(g, inc, st.imp * und);
    var txs := Jump(g, todo, inc.transactions, pot.transactions);
    var extra := FeeRate(g, txs - inc.transactions);
    more := SetInfo(txs, inc.feerate.Plus(extra));
    assert txs == inc.transactions + (txs - inc.transactions);
    SetRateUnion(g, inc.transactions, txs - inc.transactions);
    best, imp := st.best, st.imp;
    ClosedSized(g, todo, txs);
    AtLeastExcess(best.feerate, more.feerate);
    BetterMeans(more.feerate, best.feerate);
    if more.feerate.Better(best.feerate) {
      best := more;
      Self(best.feerate);
      AtLeastExcess(best.feerate, best.feerate);
      imp := TrimImproving(g, imp, best.feerate);
      ImprovingTrimmed(g, todo, st, best, imp);
    }
  }

  lemma ImprovingTrimmed(g: Cluster, todo: set<nat>, st: State, best: SetInfo, imp: set<nat>)
    requires Searchable(g, todo) && StateOk(g, todo, st) && GoodBest(g, todo, best) && NoWorseBest(st.best, best)
    requires imp <= st.imp && forall i | i in st.imp :: i in imp <==> g.Rate(i).Higher(best.feerate)
    ensures IsImproving(g, todo, best.feerate, imp)
  {
    ClosedSized(g, todo, best.transactions);
    ClosedSized(g, todo, st.best.transactions);
    StillBeats(g, todo, st.best, best, best.transactions);
    forall i | i in todo && g.Rate(i).Higher(best.feerate) ensures i in st.imp {
      AtLeastTransitive(g.Rate(i), best.feerate, st.best.feerate);
    }
  }

  lemma ItemsStayOk(g: Cluster, todo: set<nat>, st: State, best: SetInfo)
    requires Searchable(g, todo) && StateOk(g, todo, st) && GoodBest(g, todo, best) && NoWorseBest(st.best, best)
    ensures AllItemsOk(g, todo, best.feerate, st.queue)
  {
    forall k | 0 <= k < |st.queue| ensures ItemOk(g, todo, best.feerate, st.queue[k]) {
      BetterBestKeepsItem(g, todo, st.best, best, st.queue[k]);
    }
  }

  /** The effect of add_fn: the state stays in order, and nothing compatible with the given item that
      beats the best set is lost. */
  ghost predicate Added(g: Cluster, todo: set<nat>, st: State, r: State, inc: set<nat>, und: set<nat>) {
    && StateOk(g, todo, r) && NoWorseBest(st.best, r.best)
    && Queued(st, r, und) && Catches(g, todo, st, r, inc, und)
  }

  /** add_fn: queue a work item if there is anything left to split on, after improving it. */
  method AddItem(g: Cluster, todo: set<nat>, capacity: nat, st: State, inc: SetInfo, und: set<nat>) returns (r: State)
    requires Searchable(g, todo) && StateOk(g, todo, st) && Shaped(g, todo, inc, und)
    requires |st.queue| + |und| <= capacity
    ensures Added(g, todo, st, r, inc.transactions, und)
    ensures |r.queue| <= capacity
  {
    ClosedSized(g, todo, inc.transactions);
    if inc.feerate.IsEmpty() {
      if und == {} {
        NothingToSplit(g, todo, st, inc);
        return st;
      }
      EmptyAdded(g, todo, st, inc, und);
      assert |st.queue| < capacity;
      r := State(st.queue + [WorkItem(inc, und, EMPTY)], st.best, st.imp);
    } else {
      var pot, more, best, imp := GrowItem(g, todo, st, inc, und);
      if pot.feerate.size == more.feerate.size {
        r := State(st.queue, best, imp);
        GrownNothing(g, todo, st, inc, und, pot, more, best, r);
      } else {
        var left := und - more.transactions;
        r := State(st.queue + [WorkItem(more, left, pot.feerate)], best, imp);
        GrownAdded(g, todo, st, inc, und, pot, more, best, r);
        assert und != {} && |st.queue| < capacity;
      }
    }
  }

  lemma GrownNothing(g: Cluster, todo: set<nat>, st: State, inc: SetInfo, und: set<nat>, pot: SetInfo, more: SetInfo, best: SetInfo, r: State)
    requires Searchable(g, todo) && Grown(g, todo, st, inc, und, pot, more, best)
    requires pot.feerate.size == more.feerate.size
    requires r.best == best && r.queue == st.queue && IsImproving(g, todo, best.feerate, r.imp)
    ensures Added(g, todo, st, r, inc.transactions, und)
  {
    ItemsStayOk(g, todo, st, best);
    forall b | Compatible(inc.transactions, und, b) ensures !Beats(g, todo, best.feerate, b) {
      GrownDone(g, todo, st, inc, und, pot, more, best, b);
    }
  }

  lemma GrownAdded(g: Cluster, todo: set<nat>, st: State, inc: SetInfo, und: set<nat>, pot: SetInfo, more: SetInfo, best: SetInfo, r: State)
    requires Searchable(g, todo) && Grown(g, todo, st, inc, und, pot, more, best)
    requires pot.feerate.size != more.feerate.size
    requires r.best == best && r.queue == st.queue + [WorkItem(more, und - more.transactions, pot.feerate)]
    requires IsImproving(g, todo, best.feerate, r.imp)
    ensures Added(g, todo, st, r, inc.transactions, und)
    ensures und != {}
  {
    ItemsStayOk(g, todo, st, best);
    GrownItemOk(g, todo, st, inc, und, pot, more, best);
    GrownCatches(g, todo, st, inc, und, pot, more, best, r);
  }

  lemma GrownCatches(g: Cluster, todo: set<nat>, st: State, inc: SetInfo, und: set<nat>, pot: SetInfo, more: SetInfo, best: SetInfo, r: State)
    requires Searchable(g, todo) && Grown(g, todo, st, inc, und, pot, more, best)
    requires r.best == best && r.queue == st.queue + [WorkItem(more, und - more.transactions, pot.feerate)]
    ensures Catches(g, todo, st, r, inc.transactions, und)
  {
    var w := WorkItem(more, und - more.transactions, pot.feerate);
    forall b | Beats(g, todo, best.feerate, b) && Compatible(inc.transactions, und, b)
      ensures Offers(g, todo, w, b)
    {
      GrownOffers(g, todo, st, inc, und, pot, more, best, b);
      assert Compatible(w.inc.transactions, w.und, b + more.transactions);
    }
  }

  lemma NothingToSplit(g: Cluster, todo: set<nat>, st: State, inc: SetInfo)
    requires StateOk(g, todo, st) && inc.transactions == {}
    ensures Added(g, todo, st, st, inc.transactions, {})
  {
    assert forall b | Compatible({}, {}, b) :: b == {};
  }

  lemma EmptyAdded(g: Cluster, todo: set<nat>, st: State, inc: SetInfo, und: set<nat>)
    requires StateOk(g, todo, st) && Shaped(g, todo, inc, und) && inc.transactions == {} && und != {}
    ensures Added(g, todo, st, State(st.queue + [WorkItem(inc, und, EMPTY)], st.best, st.imp), inc.transactions, und)
  {
    var w := WorkItem(inc, und, EMPTY);
    forall b | Beats(g, todo, st.best.feerate, b) && Compatible(inc.transactions, und, b)
      ensures Offers(g, todo, w, b)
    {
      AtLeastExcess(SetRate(g, b), SetRate(g, b));
      Self(SetRate(g, b));
      assert Compatible(w.inc.transactions, w.und, b);
    }
  }

  // ----- split_fn

  /** How many transactions stay undecided when `t` is excluded and when it is included, larger
      number first. */
  function Counts(g: Cluster, und: set<nat>, t: nat): (nat, nat) {
    var included, excluded := |und - g.Anc(t)|, |und - g.Desc(t)|;
    if included < excluded then (excluded, included) else (included, excluded)
  }

  predicate FewerCounts(a: (nat, nat), b: (nat, nat)) {
    a.0 < b.0 || (a.0 == b.0 && a.1 < b.1)
  }

  /** The transaction that reduces the search space most. */
  method PickSplit(g: Cluster, und: set<nat>, select: set<nat>) returns (split: nat)
    requires select != {}
    ensures split in select && forall t | t in select :: !FewerCounts(Counts(g, und, t), Counts(g, und, split))
  {
    split := First(select);
    var rest := select - {split};
    while rest != {}
      invariant rest <= select && split in select
      invariant forall t | t in select - rest :: !FewerCounts(Counts(g, und, t), Counts(g, und, split))
    {
      var t := First(rest);
      rest := rest - {t};
      if FewerCounts(Counts(g, und, t), Counts(g, und, split)) {
        split := t;
      }
    }
  }

  /** No topologically valid set that beats the best one can come of the item. */
  ghost predicate Hopeless(g: Cluster, todo: set<nat>, best: FeeFrac, w: WorkItem) {
    forall b | Compatible(w.inc.transactions, w.und, b) && b != {} && Closed(g, todo, b) :: AtLeast(best, SetRate(g, b))
  }

  lemma AllBelow(g: Cluster, todo: set<nat>, best: SetInfo, inc: SetInfo, b: set<nat>)
    requires IsSetInfo(g, inc) && inc.transactions <= b
    requires inc.transactions == {} || AtLeast(best.feerate, inc.feerate)
    requires forall p | p in b - inc.transactions :: AtLeast(best.feerate, g.Rate(p))
    ensures AtLeast(best.feerate, SetRate(g, b))
  {
    var u := b - inc.transactions;
    assert b == inc.transactions + u;
    forall p | p in u ensures Excess(best.feerate, g.Rate(p)) <= 0 {
      AtLeastExcess(best.feerate, g.Rate(p));
    }
    SumBelow(g, best.feerate, u);
    ExcessUnion(g, best.feerate, inc.transactions, u);
    AtLeastExcess(best.feerate, inc.feerate);
    AtLeastExcess(best.feerate, SetRate(g, b));
  }

  /** If nothing undecided improves on the best feerate, neither does any compatible set. */
  lemma NoImproving(g: Cluster, todo: set<nat>, st: State, w: WorkItem)
    requires Searchable(g, todo) && StateOk(g, todo, st) && ItemOk(g, todo, st.best.feerate, w)
    requires w.inc.transactions != {} && w.und !! st.imp
    ensures Hopeless(g, todo, st.best.feerate, w)
  {
    forall b | Compatible(w.inc.transactions, w.und, b) && b != {} && Closed(g, todo, b)
      ensures AtLeast(st.best.feerate, SetRate(g, b))
    {
      AllBelow(g, todo, st.best, w.inc, b);
    }
  }

  lemma LowPotential(g: Cluster, todo: set<nat>, st: State, w: WorkItem)
    requires Searchable(g, todo) && StateOk(g, todo, st) && ItemOk(g, todo, st.best.feerate, w)
    requires w.inc.transactions != {} && !w.pot.Better(st.best.feerate)
    ensures Hopeless(g, todo, st.best.feerate, w)
  {
    forall b | Compatible(w.inc.transactions, w.und, b) && b != {} && Closed(g, todo, b)
      ensures AtLeast(st.best.feerate, SetRate(g, b))
    {
      ClosedSized(g, todo, b);
      ClosedSized(g, todo, st.best.transactions);
      BetterMeans(w.pot, st.best.feerate);
      AtLeastExcess(w.pot, st.best.feerate);
      AtLeastTransitive(w.pot, SetRate(g, b), st.best.feerate);
    }
  }

  lemma LowFirst(g: Cluster, todo: set<nat>, st: State, w: WorkItem)
    requires Searchable(g, todo) && StateOk(g, todo, st) && ItemOk(g, todo, st.best.feerate, w)
    requires w.inc.transactions == {} && !g.Rate(First(w.und)).Better(st.best.feerate)
    ensures Hopeless(g, todo, st.best.feerate, w)
  {
    var first, best := First(w.und), st.best.feerate;
    ClosedSized(g, todo, st.best.transactions);
    BetterMeans(g.Rate(first), best);
    AtLeastExcess(best, g.Rate(first));
    forall p | p in w.und ensures AtLeast(best, g.Rate(p)) {
      if p != first {
        assert AtLeast(g.Rate(first), g.Rate(p));
        AtLeastTransitive(best, g.Rate(first), g.Rate(p));
      }
    }
    forall b | Compatible(w.inc.transactions, w.und, b) && b != {} && Closed(g, todo, b)
      ensures AtLeast(best, SetRate(g, b))
    {
      AllBelow(g, todo, st.best, w.inc, b);
    }
  }

  /** Excluding a transaction with its descendants, or including it with its ancestors, leaves items of
      the right shape with fewer undecided transactions. */
  lemma SplitShapes(g: Cluster, todo: set<nat>, w: WorkItem, split: nat, with_: SetInfo)
    requires Searchable(g, todo) && Shaped(g, todo, w.inc, w.und) && split in w.und
    requires with_.transactions == w.inc.transactions + g.Anc(split) * todo && IsSetInfo(g, with_)
    ensures Shaped(g, todo, w.inc, w.und - g.Desc(split)) && w.und - g.Desc(split) < w.und
    ensures Shaped(g, todo, with_, w.und - g.Anc(split) * todo) && w.und - g.Anc(split) * todo < w.und
  {
    AncestorSetClosed(g, todo, split);
    ClosedUnion(g, todo, w.inc.transactions, g.Anc(split) * todo);
    assert with_.transactions + (w.und - g.Anc(split) * todo) == w.inc.transactions + w.und;
    ExcludeClosed(g, todo, w, split);
  }

  lemma ExcludeClosed(g: Cluster, todo: set<nat>, w: WorkItem, split: nat)
    requires Searchable(g, todo) && Shaped(g, todo, w.inc, w.und) && split in w.und
    ensures Closed(g, todo, w.inc.transactions + (w.und - g.Desc(split)))
  {
    var s := w.inc.transactions + (w.und - g.Desc(split));
    forall i, j | i in s && j in g.Anc(i) && j in todo ensures j in s {
      if i !in w.inc.transactions {
        assert j in g.Desc(split) ==> split in g.Anc(j) && i in g.Desc(split);
      }
    }
  }

  /** Every topologically valid set of an item is compatible with one of its two halves. */
  lemma SplitCovers(g: Cluster, todo: set<nat>, w: WorkItem, split: nat, c: set<nat>)
    requires Searchable(g, todo) && Shaped(g, todo, w.inc, w.und) && split in w.und
    requires Compatible(w.inc.transactions, w.und, c) && Closed(g, todo, c)
    ensures || Compatible(w.inc.transactions, w.und - g.Desc(split), c)
            || Compatible(w.inc.transactions + g.Anc(split) * todo, w.und - g.Anc(split) * todo, c)
  {
    if split !in c {
      forall d | d in c ensures d !in g.Desc(split) || d in w.inc.transactions {
        assert d in g.Desc(split) ==> split in g.Anc(d);
      }
    }
  }

  /** The effect of split_fn on the queue it was taken from. */
  ghost predicate Split(g: Cluster, todo: set<nat>, st: State, w: WorkItem, r: State) {
    && StateOk(g, todo, r) && NoWorseBest(st.best, r.best)
    && st.queue <= r.queue && |r.queue| <= |st.queue| + 2
    && (forall k | |st.queue| <= k < |r.queue| :: |r.queue[k].und| < |w.und|)
    && (forall b | Beats(g, todo, r.best.feerate, b) && Offers(g, todo, w, b) :: QueueOffers(g, todo, r.queue, b))
  }

  lemma OffersBeats(g: Cluster, todo: set<nat>, best: SetInfo, b: set<nat>, c: set<nat>)
    requires Searchable(g, todo) && GoodBest(g, todo, best) && Beats(g, todo, best.feerate, b)
    requires c != {} && Closed(g, todo, c) && AtLeast(SetRate(g, c), SetRate(g, b))
    ensures Beats(g, todo, best.feerate, c)
  {
    ClosedSized(g, todo, b);
    ClosedSized(g, todo, c);
    ClosedSized(g, todo, best.transactions);
    AtLeastTransitive(SetRate(g, c), SetRate(g, b), best.feerate);
  }

  lemma OffersTransitive(g: Cluster, todo: set<nat>, w: WorkItem, b: set<nat>, c: set<nat>)
    requires Searchable(g, todo) && b <= todo && b != {} && c <= todo && c != {}
    requires Offers(g, todo, w, c) && AtLeast(SetRate(g, c), SetRate(g, b))
    ensures Offers(g, todo, w, b)
  {
    var d :| Compatible(w.inc.transactions, w.und, d) && d != {} && Closed(g, todo, d)
             && AtLeast(SetRate(g, d), SetRate(g, c));
    ClosedSized(g, todo, b);
    ClosedSized(g, todo, c);
    ClosedSized(g, todo, d);
    AtLeastTransitive(SetRate(g, d), SetRate(g, c), SetRate(g, b));
  }

  lemma HopelessSplit(g: Cluster, todo: set<nat>, st: State, w: WorkItem)
    requires Searchable(g, todo) && StateOk(g, todo, st) && Hopeless(g, todo, st.best.feerate, w)
    ensures Split(g, todo, st, w, st)
  {
    forall b | Beats(g, todo, st.best.feerate, b) ensures !Offers(g, todo, w, b) {
      forall c | Compatible(w.inc.transactions, w.und, c) && c != {} && Closed(g, todo, c)
        ensures !AtLeast(SetRate(g, c), SetRate(g, b))
      {
        ClosedSized(g, todo, b);
        ClosedSized(g, todo, c);
        ClosedSized(g, todo, st.best.transactions);
        AtLeastTransitive(st.best.feerate, SetRate(g, c), SetRate(g, b));
      }
    }
  }

  /** Adding both halves of an item loses nothing of it. */
  lemma SplitInTwo(g: Cluster, todo: set<nat>, st: State, w: WorkItem, split: nat, mid: State, r: State)
    requires Searchable(g, todo) && StateOk(g, todo, st) && ItemOk(g, todo, st.best.feerate, w) && split in w.und
    requires Added(g, todo, st, mid, w.inc.transactions, w.und - g.Desc(split))
    requires Added(g, todo, mid, r, w.inc.transactions + g.Anc(split) * todo, w.und - g.Anc(split) * todo)
    ensures forall b | Beats(g, todo, r.best.feerate, b) && Offers(g, todo, w, b) :: QueueOffers(g, todo, r.queue, b)
  {
    forall b | Beats(g, todo, r.best.feerate, b) && Offers(g, todo, w, b) ensures QueueOffers(g, todo, r.queue, b) {
      var c :| Compatible(w.inc.transactions, w.und, c) && c != {} && Closed(g, todo, c)
               && AtLeast(SetRate(g, c), SetRate(g, b));
      OffersBeats(g, todo, r.best, b, c);
      StillBeats(g, todo, mid.best, r.best, c);
      SplitCovers(g, todo, w, split, c);
      var k := if Compatible(w.inc.transactions, w.und - g.Desc(split), c) then |st.queue| else |mid.queue|;
      assert Beats(g, todo, mid.best.feerate, c);
      assert k < |r.queue| && Offers(g, todo, r.queue[k], c);
      OffersTransitive(g, todo, r.queue[k], b, c);
    }
  }

  /** An item is worth splitting: some undecided transaction and the potential feerate are better than the best or,
      with nothing included yet, the first transaction is. */
  ghost predicate Promising(g: Cluster, st: State, w: WorkItem) {
    if w.inc.feerate.IsEmpty() then w.und != {} && g.Rate(First(w.und)).Better(st.best.feerate)
    else w.und * st.imp != {} && w.pot.Better(st.best.feerate)
  }

  /** split_fn: replace a work item by its two halves, unless nothing can come of it. */
  method SplitItem(g: Cluster, todo: set<nat>, capacity: nat, st: State, w: WorkItem) returns (r: State, performed: bool)
    requires Searchable(g, todo) && StateOk(g, todo, st) && ItemOk(g, todo, st.best.feerate, w)
    requires |st.queue| + |w.und| <= capacity
    ensures Split(g, todo, st, w, r) && |r.queue| <= capacity
    ensures (performed <==> Promising(g, st, w)) && (!performed ==> r == st)
  {
    var first := First(w.und);
    ClosedSized(g, todo, w.inc.transactions);
    if !w.inc.feerate.IsEmpty() {
      if w.und !! st.imp {
        NoImproving(g, todo, st, w);
        HopelessSplit(g, todo, st, w);
        return st, false;
      }
      if !w.pot.Better(st.best.feerate) {
        LowPotential(g, todo, st, w);
        HopelessSplit(g, todo, st, w);
        return st, false;
      }
    } else if !g.Rate(first).Better(st.best.feerate) {
      LowFirst(g, todo, st, w);
      HopelessSplit(g, todo, st, w);
      return st, false;
    }
    var split := PickSplit(g, w.und, w.und * g.Anc(first));
    r := SplitOn(g, todo, capacity, st, w, split);
    performed := true;
  }

  method SplitOn(g: Cluster, todo: set<nat>, capacity: nat, st: State, w: WorkItem, split: nat) returns (r: State)
    requires Searchable(g, todo) && StateOk(g, todo, st) && ItemOk(g, todo, st.best.feerate, w)
    requires |st.queue| + |w.und| <= capacity && split in w.und
    ensures Split(g, todo, st, w, r) && |r.queue| <= capacity
  {
    var anc, without := g.Anc(split) * todo, w.und - g.Desc(split);
    var with_ := WithAncestors(g, w.inc, anc);
    SplitShapes(g, todo, w, split, with_);
    SmallerSubset(without, w.und);
    SmallerSubset(w.und - anc, w.und);
    var mid := AddItem(g, todo, capacity, st, w.inc, without);
    assert |mid.queue| + |w.und - anc| <= capacity;
    r := AddItem(g, todo, capacity, mid, with_, w.und - anc);
    BothAdded(g, todo, st, w, split, mid, r);
  }

  /** SetInfo::Add. */
  method WithAncestors(g: Cluster, inc: SetInfo, anc: set<nat>) returns (r: SetInfo)
    requires IsSetInfo(g, inc)
    ensures IsSetInfo(g, r) && r.transactions == inc.transactions + anc
  {
    var extra := FeeRate(g, anc - inc.transactions);
    r := SetInfo(inc.transactions + anc, inc.feerate.Plus(extra));
    assert r.transactions == inc.transactions + (anc - inc.transactions);
    SetRateUnion(g, inc.transactions, anc - inc.transactions);
  }

  lemma BothAdded(g: Cluster, todo: set<nat>, st: State, w: WorkItem, split: nat, mid: State, r: State)
    requires Searchable(g, todo) && StateOk(g, todo, st) && ItemOk(g, todo, st.best.feerate, w) && split in w.und
    requires Added(g, todo, st, mid, w.inc.transactions, w.und - g.Desc(split))
    requires Added(g, todo, mid, r, w.inc.transactions + g.Anc(split) * todo, w.und - g.Anc(split) * todo)
    requires |w.und - g.Desc(split)| < |w.und| && |w.und - g.Anc(split) * todo| < |w.und|
    ensures Split(g, todo, st, w, r)
  {
    SplitInTwo(g, todo, st, w, split, mid, r);
    SplitSizes(g, todo, st, w, split, mid, r);
  }

  lemma SplitSizes(g: Cluster, todo: set<nat>, st: State, w: WorkItem, split: nat, mid: State, r: State)
    requires Searchable(g, todo) && GoodBest(g, todo, st.best) && GoodBest(g, todo, mid.best) && GoodBest(g, todo, r.best)
    requires Queued(st, mid, w.und - g.Desc(split)) && Queued(mid, r, w.und - g.Anc(split) * todo)
    requires |w.und - g.Desc(split)| < |w.und| && |w.und - g.Anc(split) * todo| < |w.und|
    requires NoWorseBest(st.best, mid.best) && NoWorseBest(mid.best, r.best)
    ensures st.queue <= r.queue && |r.queue| <= |st.queue| + 2
    ensures forall k | |st.queue| <= k < |r.queue| :: |r.queue[k].und| < |w.und|
    ensures NoWorseBest(st.best, r.best)
  {
    forall k | |st.queue| <= k < |r.queue| ensures |r.queue[k].und| < |w.und| {
      if k < |mid.queue| {
        assert mid.queue[k] == r.queue[k];
        SubsetSize(r.queue[k].und, w.und - g.Desc(split));
      } else {
        SubsetSize(r.queue[k].und, w.und - g.Anc(split) * todo);
      }
    }
    BetterChain(g, todo, st.best, mid.best, r.best);
  }

  lemma SubsetSize(a: set<nat>, b: set<nat>)
    requires a <= b
    ensures |a| <= |b|
  {
    if a != b {
      SmallerSubset(a, b);
    }
  }

  lemma BetterChain(g: Cluster, todo: set<nat>, a: SetInfo, b: SetInfo, c: SetInfo)
    requires Searchable(g, todo) && GoodBest(g, todo, a) && GoodBest(g, todo, b) && GoodBest(g, todo, c)
    requires NoWorseBest(a, b) && NoWorseBest(b, c)
    ensures NoWorseBest(a, c)
  {
    ClosedSized(g, todo, a.transactions);
    ClosedSized(g, todo, b.transactions);
    ClosedSized(g, todo, c.transactions);
    var A, B, C := a.feerate, b.feerate, c.feerate;
    BetterMeans(B, A);
    BetterMeans(C, B);
    BetterMeans(C, A);
    ExcessTransitive(A, B, C);
  }
}
