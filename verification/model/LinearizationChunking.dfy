/** The chunking of a linearization from which transactions can be removed (ChunkLinearization and
    LinearizationChunking in src/cluster_linearize.h). */
module LinearizationChunkings {
  import opened FeeFracs
  import opened Positions
  import opened Clusters
  import opened Chunkings
  import opened Diagrams
  import opened Gathering
  import opened DepGraphs

  /** Some transactions, and the fee and size they have in total. */
  datatype SetInfo = SetInfo(transactions: set<nat>, feerate: FeeFrac)

  const NOTHING := SetInfo({}, EMPTY)

  ghost predicate IsSetInfo(g: Cluster, s: SetInfo) {
    s.feerate == SetRate(g, s.transactions)
  }

  function Info(g: Cluster, c: seq<nat>): SetInfo {
    SetInfo(Elems(c), SeqRate(g, c))
  }

  function Infos(g: Cluster, cs: seq<seq<nat>>): seq<SetInfo> {
    seq(|cs|, i requires 0 <= i < |cs| => Info(g, cs[i]))
  }

  /** Absorbing the last chunk is a step of `Absorb`, and keeps the accounts. */
  lemma AbsorbStep(g: Cluster, cs: seq<seq<nat>>, c: seq<nat>)
    requires cs != []
    ensures Info(g, c).feerate.Higher(Info(g, cs[|cs| - 1]).feerate) ==>
              Absorb(g, cs, c) == Absorb(g, cs[..|cs| - 1], cs[|cs| - 1] + c)
  {
  }

  lemma AbsorbInfo(g: Cluster, cs: seq<seq<nat>>, c: seq<nat>)
    requires cs != []
    ensures var init, last := cs[..|cs| - 1], cs[|cs| - 1];
            && Infos(g, cs) == Infos(g, init) + [Info(g, last)]
            && Info(g, last + c).transactions == Info(g, c).transactions + Info(g, last).transactions
            && Info(g, last + c).feerate == Info(g, c).feerate.Plus(Info(g, last).feerate)
  {
    hide SeqRate, Elems;
    JoinedInfo(g, cs[|cs| - 1], c);
  }

  lemma JoinedInfo(g: Cluster, last: seq<nat>, c: seq<nat>)
    ensures Info(g, last + c).transactions == Info(g, c).transactions + Info(g, last).transactions
    ensures Info(g, last + c).feerate == Info(g, c).feerate.Plus(Info(g, last).feerate)
  {
    hide SeqRate, Elems;
    SeqRateConcat(g, last, c);
    ElemsConcat(last, c);
    PlusLaws(SeqRate(g, c), SeqRate(g, last), EMPTY);
  }

  lemma AbsorbDone(g: Cluster, cs: seq<seq<nat>>, c: seq<nat>)
    requires cs != [] ==> !Info(g, c).feerate.Higher(Info(g, cs[|cs| - 1]).feerate)
    ensures Absorb(g, cs, c) == cs + [c]
    ensures Infos(g, cs + [c]) == Infos(g, cs) + [Info(g, c)]
  {
  }

  lemma SingletonInfo(g: Cluster, idx: nat)
    ensures Info(g, [idx]) == SetInfo({idx}, g.Rate(idx))
  {
    SeqRateOne(g, idx);
    ElemsOne(idx);
  }

  lemma ChunksStep(g: Cluster, done: seq<nat>, idx: nat)
    ensures Chunks(g, done + [idx]) == Absorb(g, Chunks(g, done), [idx])
    ensures Info(g, [idx]) == SetInfo({idx}, g.Rate(idx))
  {
    var s := done + [idx];
    var n := |s| - 1;
    assert s[..n] == done && s[n] == idx;
    SingletonInfo(g, idx);
  }

  function FeeRates(infos: seq<SetInfo>): seq<FeeFrac> {
    seq(|infos|, i requires 0 <= i < |infos| => infos[i].feerate)
  }

  /** Compute the feerates of the chunks of a linearization. */
  method ChunkLinearization(g: Cluster, lin: seq<nat>) returns (ret: seq<FeeFrac>)
    ensures ret == ChunkRates(g, Chunks(g, lin))
  {
    ret := [];
    for k := 0 to |lin|
      invariant ret == FeeRates(Infos(g, Chunks(g, lin[..k])))
    {
      assert lin[..k + 1] == lin[..k] + [lin[k]];
      ret := AddToRates(g, ret, lin[k], lin[..k]);
    }
    assert lin[..|lin|] == lin;
  }

  /** One step of chunking: absorb final chunks of lower feerate into the new one. */
  method AddToRates(g: Cluster, rates: seq<FeeFrac>, idx: nat, ghost done: seq<nat>) returns (r: seq<FeeFrac>)
    requires rates == FeeRates(Infos(g, Chunks(g, done)))
    ensures r == FeeRates(Infos(g, Chunks(g, done + [idx])))
  {
    hide Absorb, Chunks, Info;
    r := rates;
    ghost var cs, c := Chunks(g, done), [idx];
    ChunksStep(g, done, idx);
    var newChunk := g.Rate(idx);
    while r != [] && newChunk.Higher(r[|r| - 1])
      invariant r == FeeRates(Infos(g, cs)) && newChunk == Info(g, c).feerate
      invariant Absorb(g, cs, c) == Chunks(g, done + [idx])
      decreases |r|
    {
      AbsorbStep(g, cs, c);
      AbsorbInfo(g, cs, c);
      newChunk := newChunk.Plus(r[|r| - 1]);
      r := r[..|r| - 1];
      cs, c := cs[..|cs| - 1], cs[|cs| - 1] + c;
    }
    AbsorbDone(g, cs, c);
    r := r + [newChunk];
  }

  /** One step of chunking, keeping the sets as well. */
  method AddToChunks(g: Cluster, chunks: seq<SetInfo>, idx: nat, ghost done: seq<nat>) returns (r: seq<SetInfo>)
    requires chunks == Infos(g, Chunks(g, done))
    ensures r == Infos(g, Chunks(g, done + [idx]))
  {
    hide Absorb, Chunks, Info;
    r := chunks;
    ghost var cs, c := Chunks(g, done), [idx];
    ChunksStep(g, done, idx);
    var add := SetInfo({idx}, g.Rate(idx));
    while r != [] && add.feerate.Higher(r[|r| - 1].feerate)
      invariant r == Infos(g, cs) && add == Info(g, c)
      invariant Absorb(g, cs, c) == Chunks(g, done + [idx])
      decreases |r|
    {
      AbsorbStep(g, cs, c);
      AbsorbInfo(g, cs, c);
      var back := r[|r| - 1];
      add := SetInfo(add.transactions + back.transactions, add.feerate.Plus(back.feerate));
      r := r[..|r| - 1];
      cs, c := cs[..|cs| - 1], cs[|cs| - 1] + c;
    }
    AbsorbDone(g, cs, c);
    r := r + [add];
  }

  class LinearizationChunking {
    const depgraph: Cluster
    ghost const original: seq<nat>
    var lin: seq<nat>
    var chunks: seq<SetInfo>
    var skip: nat
    var todo: set<nat>

    /** What remains of the linearization. */
    ghost function Remaining(): seq<nat>
      reads this
    {
      Filter(original, todo)
    }

    /** Its chunks, computed from scratch. */
    ghost function Spec(): seq<seq<nat>>
      reads this
    {
      Chunks(depgraph, Remaining())
    }

    ghost predicate Valid()
      reads this
    {
      && NoDup(original) && SizedSeq(depgraph, original)
      && todo <= Elems(original)
      && skip <= |chunks|
      && chunks[skip..] == Infos(depgraph, Spec())
      && Filter(lin, todo) == Remaining()
    }

    constructor (depgraph: Cluster, lin: seq<nat>)
      requires NoDup(lin) && SizedSeq(depgraph, lin)
      ensures Valid() && todo == Elems(lin)
      ensures this.depgraph == depgraph && original == lin
    {
      this.depgraph := depgraph;
      original := lin;
      skip := 0;
      todo := Elems(lin);
      var rest, built := BuildChunks(depgraph, lin, Elems(lin));
      this.lin, chunks := rest, built;
    }

    function NumChunksLeft(): nat
      reads this
      requires skip <= |chunks|
    {
      |chunks| - skip
    }

    function GetChunk(n: nat): SetInfo
      reads this
      requires n + skip < |chunks|
    {
      chunks[n + skip]
    }

    method MarkDone(subset: set<nat>)
      requires Valid() && subset != {} && subset <= todo
      modifies this
      ensures Valid() && todo == old(todo) - subset
    {
      ghost var cs, was := Spec(), todo;
      RemainingHasChunk(depgraph, original, todo, cs);
      todo := todo - subset;
      if GetChunk(0).transactions == subset {
        FirstChunkDone(depgraph, original, lin, was, cs, subset);
        skip := skip + 1;
        lin := lin[|subset|..];
        assert chunks[skip..] == Infos(depgraph, cs)[1..];
      } else {
        FilterStill(original, lin, was, todo);
        skip := 0;
        lin, chunks := BuildChunks(depgraph, lin, todo);
      }
    }

    /** The shortest intersection of `subset` with a prefix of the remaining chunks whose feerate is
        not below that of `subset`.  If `subset` is at least as good as the first chunk, moving the
        result to the front does not make the linearization worse. */
    method IntersectPrefixes(subset: SetInfo) returns (r: SetInfo)
      requires Valid() && subset.transactions <= todo && IsSetInfo(depgraph, subset)
      ensures IsSetInfo(depgraph, r) && !r.feerate.Lower(subset.feerate)
      ensures IsPrefixPart(Spec(), subset.transactions, r.transactions)
      ensures subset.transactions != {} ==> r.transactions != {}
      ensures AtLeastFirstChunk(depgraph, Spec(), subset) ==> Gatherable(depgraph, Spec(), r.transactions)
    {
      SpecFacts(depgraph, original, todo, Spec());
      r := Intersect(depgraph, chunks[skip..], subset, Spec());
      if AtLeastFirstChunk(depgraph, Spec(), subset) {
        IntersectionGatherable(depgraph, Remaining(), Spec(), subset, r);
      }
    }
  }

  ghost predicate AtLeastFirstChunk(g: Cluster, cs: seq<seq<nat>>, subset: SetInfo) {
    subset.transactions != {} && (cs != [] ==> !SeqRate(g, cs[0]).Higher(subset.feerate))
  }

  /** The part of `s` that lies in the first `m` chunks. */
  ghost function PrefixPart(cs: seq<seq<nat>>, s: set<nat>, m: nat): set<nat>
    requires m <= |cs|
  {
    s * Elems(Flatten(cs[..m]))
  }

  ghost predicate IsPrefixPart(cs: seq<seq<nat>>, s: set<nat>, part: set<nat>) {
    exists m | 0 <= m <= |cs| :: part == PrefixPart(cs, s, m)
  }

  /** A part of a closed set that lies in the first chunks is closed. */
  lemma PrefixPartClosed(g: Cluster, lin: seq<nat>, cs: seq<seq<nat>>, s: set<nat>, part: set<nat>)
    requires Topological(g, lin) && Flatten(cs) == lin
    requires Closed(g, Elems(lin), s) && IsPrefixPart(cs, s, part)
    ensures Closed(g, Elems(lin), part)
  {
    var m :| 0 <= m <= |cs| && part == PrefixPart(cs, s, m);
    FlattenPrefix(cs, m);
    PrefixClosed(g, Flatten(cs[..m]), Flatten(cs[m..]));
  }

  ghost predicate NoBetterPart(g: Cluster, cs: seq<seq<nat>>, s: set<nat>) {
    forall m | 0 <= m <= |cs| :: !SetRate(g, PrefixPart(cs, s, m)).Higher(SetRate(g, s))
  }

  lemma SpecFacts(g: Cluster, original: seq<nat>, todo: set<nat>, cs: seq<seq<nat>>)
    requires NoDup(original) && SizedSeq(g, original) && todo <= Elems(original)
    requires cs == Chunks(g, Filter(original, todo))
    ensures IsChunking(g, cs, Filter(original, todo)) && SizedSeq(g, Filter(original, todo))
    ensures NoDup(Filter(original, todo)) && Elems(Filter(original, todo)) == todo
  {
    FilterElems(original, todo);
    FilterSized(g, original, todo);
    ChunksAreChunking(g, Filter(original, todo));
  }

  /** All parts in the first `i` chunks have a feerate below that of `subset`. */
  ghost predicate LowUntil(g: Cluster, cs: seq<seq<nat>>, subset: SetInfo, i: nat)
    requires i <= |cs|
  {
    forall m | 0 <= m <= i :: PrefixPart(cs, subset.transactions, m) == {}
                              || SetRate(g, PrefixPart(cs, subset.transactions, m)).Lower(subset.feerate)
  }

  method Intersect(g: Cluster, chunks: seq<SetInfo>, subset: SetInfo, ghost cs: seq<seq<nat>>) returns (r: SetInfo)
    requires chunks == Infos(g, cs) && NoDup(Flatten(cs)) && SizedSeq(g, Flatten(cs))
    requires IsSetInfo(g, subset) && subset.transactions <= Elems(Flatten(cs))
    ensures IsSetInfo(g, r) && !r.feerate.Lower(subset.feerate)
    ensures IsPrefixPart(cs, subset.transactions, r.transactions)
    ensures subset.transactions != {} ==> r.transactions != {}
    ensures NoBetterPart(g, cs, r.transactions)
  {
    hide LowUntil, PrefixPart, SeqRate, SizedSeq, NoDup, NoBetterPart, IsPrefixPart, Elems, Flatten;
    var acc := NOTHING;
    WholePart(cs, subset.transactions);
    NothingLow(g, cs, subset);
    for i := 0 to |chunks|
      invariant acc.transactions == PrefixPart(cs, subset.transactions, i) && IsSetInfo(g, acc)
      invariant LowUntil(g, cs, subset, i)
    {
      var toAdd := chunks[i].transactions * subset.transactions;
      NextPart(g, cs, subset.transactions, i);
      if toAdd != {} {
        var grown := acc.transactions + toAdd;
        if grown == subset.transactions {
          PartFound(g, cs, subset, i + 1, subset);
          return subset;
        }
        var extra := FeeRate(g, toAdd);
        SetRateUnion(g, acc.transactions, toAdd);
        acc := SetInfo(grown, acc.feerate.Plus(extra));
        if !acc.feerate.Lower(subset.feerate) {
          PartFound(g, cs, subset, i + 1, acc);
          return acc;
        }
      }
      LowNext(g, cs, subset, i);
    }
    if cs != [] {
      LowLess(g, cs, subset, |cs|);
    }
    PartFound(g, cs, subset, |cs|, subset);
    return subset;
  }

  lemma NothingLow(g: Cluster, cs: seq<seq<nat>>, subset: SetInfo)
    ensures LowUntil(g, cs, subset, 0)
  {
    hide SetRate;
    assert cs[..0] == [];
  }

  lemma LowNext(g: Cluster, cs: seq<seq<nat>>, subset: SetInfo, i: nat)
    requires i < |cs| && LowUntil(g, cs, subset, i)
    requires var next := PrefixPart(cs, subset.transactions, i + 1);
             next == PrefixPart(cs, subset.transactions, i) || SetRate(g, next).Lower(subset.feerate)
    ensures LowUntil(g, cs, subset, i + 1)
  {
    hide SetRate, PrefixPart;
  }

  lemma LowLess(g: Cluster, cs: seq<seq<nat>>, subset: SetInfo, i: nat)
    requires 0 < i <= |cs| && LowUntil(g, cs, subset, i)
    ensures LowUntil(g, cs, subset, i - 1)
  {
    hide SetRate, PrefixPart;
  }

  lemma PartFound(g: Cluster, cs: seq<seq<nat>>, subset: SetInfo, i: nat, r: SetInfo)
    requires 0 < i <= |cs| || (i == |cs| == 0)
    requires SizedSeq(g, Flatten(cs)) && IsSetInfo(g, subset) && IsSetInfo(g, r)
    requires subset.transactions <= Elems(Flatten(cs)) && r.transactions == PrefixPart(cs, subset.transactions, i)
    requires LowUntil(g, cs, subset, if i == 0 then 0 else i - 1) && !r.feerate.Lower(subset.feerate)
    ensures NoBetterPart(g, cs, r.transactions) && IsPrefixPart(cs, subset.transactions, r.transactions)
  {
    hide SetRate, PrefixPart, NoBetterPart, LowUntil;
    SelfPart(g, cs, subset, i, r);
  }

  lemma WholePart(cs: seq<seq<nat>>, s: set<nat>)
    requires s <= Elems(Flatten(cs))
    ensures PrefixPart(cs, s, |cs|) == s && PrefixPart(cs, s, 0) == {}
  {
    assert cs[..|cs|] == cs;
    assert cs[..0] == [];
  }

  lemma NextPart(g: Cluster, cs: seq<seq<nat>>, s: set<nat>, i: nat)
    requires i < |cs| && NoDup(Flatten(cs))
    ensures PrefixPart(cs, s, i + 1) == PrefixPart(cs, s, i) + Elems(cs[i]) * s
    ensures PrefixPart(cs, s, i) !! Elems(cs[i])
  {
    FlattenPrefix(cs, i + 1);
    FlattenTake(cs, i);
    NextPartOf(Flatten(cs[..i]), cs[i], Flatten(cs[i + 1..]), s);
  }

  lemma NextPartOf(a: seq<nat>, b: seq<nat>, rest: seq<nat>, s: set<nat>)
    requires NoDup(a + b + rest)
    ensures s * Elems(a + b) == s * Elems(a) + Elems(b) * s
    ensures s * Elems(a) !! Elems(b)
  {
    NoDupConcat(a + b, rest);
    NoDupConcat(a, b);
    ElemsConcat(a, b);
  }

  lemma PartMonotone(cs: seq<seq<nat>>, s: set<nat>, m: nat, n: nat)
    requires m <= n <= |cs|
    ensures PrefixPart(cs, s, m) <= PrefixPart(cs, s, n)
  {
    assert cs[..n][..m] == cs[..m];
    FlattenPrefix(cs[..n], m);
    ElemsConcat(Flatten(cs[..m]), Flatten(cs[..n][m..]));
  }

  /** A part not below `subset`, all shorter ones being below it, has no better part of its own. */
  lemma SelfPart(g: Cluster, cs: seq<seq<nat>>, subset: SetInfo, i: nat, r: SetInfo)
    requires 0 < i <= |cs| || (i == |cs| == 0)
    requires SizedSeq(g, Flatten(cs)) && IsSetInfo(g, subset) && IsSetInfo(g, r)
    requires subset.transactions <= Elems(Flatten(cs))
    requires r.transactions == PrefixPart(cs, subset.transactions, i)
    requires LowUntil(g, cs, subset, if i == 0 then 0 else i - 1) && !r.feerate.Lower(subset.feerate)
    ensures NoBetterPart(g, cs, r.transactions)
  {
    var S := subset.transactions;
    forall m | 0 <= m <= |cs| ensures !SetRate(g, PrefixPart(cs, r.transactions, m)).Higher(r.feerate) {
      if m >= i {
        PartMonotone(cs, S, i, m);
        assert PrefixPart(cs, r.transactions, m) == r.transactions;
      } else {
        PartMonotone(cs, S, m, i);
        assert PrefixPart(cs, r.transactions, m) == PrefixPart(cs, S, m);
        LowerPart(g, PrefixPart(cs, S, m), r.transactions, S);
      }
    }
  }

  lemma LowerPart(g: Cluster, part: set<nat>, r: set<nat>, s: set<nat>)
    requires part <= r <= s && forall i | i in s :: g.Rate(i).size > 0
    requires part == {} || SetRate(g, part).Lower(SetRate(g, s))
    requires !SetRate(g, r).Lower(SetRate(g, s))
    ensures !SetRate(g, part).Higher(SetRate(g, r))
  {
    var P, R, S := SetRate(g, part), SetRate(g, r), SetRate(g, s);
    SetRatePositive(g, part);
    SetRatePositive(g, r);
    SetRatePositive(g, s);
    if part != {} {
      ExcessSwap(P, S);
      ExcessSwap(R, S);
      ExcessSwap(S, P);
      ExcessSwap(P, R);
      ExcessTransitive(P, S, R);
      ExcessSwap(R, P);
    }
  }

  lemma IntersectionGatherable(g: Cluster, lin: seq<nat>, cs: seq<seq<nat>>, subset: SetInfo, r: SetInfo)
    requires IsChunking(g, cs, lin) && SizedSeq(g, lin)
    requires IsSetInfo(g, subset) && IsSetInfo(g, r) && r.transactions <= subset.transactions <= Elems(lin)
    requires AtLeastFirstChunk(g, cs, subset)
    requires !r.feerate.Lower(subset.feerate) && NoBetterPart(g, cs, r.transactions)
    requires r.transactions != {}
    ensures Gatherable(g, cs, r.transactions)
  {
    SetRatePositive(g, subset.transactions);
    SetRatePositive(g, r.transactions);
    if cs != [] {
      var C, R, S := SeqRate(g, cs[0]), r.feerate, subset.feerate;
      ChunkRatesPositive(g, cs, lin);
      assert ChunkRates(g, cs)[0] == C;
      ExcessSwap(C, S);
      ExcessSwap(S, C);
      ExcessSwap(R, S);
      ExcessSwap(C, R);
      ExcessTransitive(C, S, R);
      ExcessSwap(R, C);
    }
    forall m | 0 <= m <= |cs|
      ensures !SetRate(g, r.transactions * Elems(Flatten(cs[..m]))).Higher(SetRate(g, r.transactions))
    {
      assert PrefixPart(cs, r.transactions, m) == r.transactions * Elems(Flatten(cs[..m]));
    }
  }

  /** Chop off what is already done at the front, and chunk the rest. */
  method BuildChunks(g: Cluster, lin: seq<nat>, todo: set<nat>) returns (rest: seq<nat>, chunks: seq<SetInfo>)
    ensures Filter(rest, todo) == Filter(lin, todo)
    ensures chunks == Infos(g, Chunks(g, Filter(lin, todo)))
  {
    rest := lin;
    while rest != [] && rest[0] !in todo
      invariant Filter(rest, todo) == Filter(lin, todo)
      decreases |rest|
    {
      rest := rest[1..];
    }
    chunks := [];
    for k := 0 to |rest|
      invariant chunks == Infos(g, Chunks(g, Filter(rest[..k], todo)))
    {
      var idx := rest[k];
      FilterConcat(rest[..k], [idx], todo);
      assert rest[..k] + [idx] == rest[..k + 1];
      FilterOne(idx, todo);
      if idx !in todo {
        assert Filter(rest[..k], todo) + [] == Filter(rest[..k], todo);
        continue;
      }
      chunks := AddToChunks(g, chunks, idx, Filter(rest[..k], todo));
    }
    assert rest[..|rest|] == rest;
  }

  lemma FilterOne(x: nat, keep: set<nat>)
    ensures Filter([x], keep) == if x in keep then [x] else []
  {
    var s := [x];
    assert s[1..] == [] && Filter(s[1..], keep) == [];
  }

  lemma {:induction false} RemainingHasChunk(g: Cluster, original: seq<nat>, todo: set<nat>, cs: seq<seq<nat>>)
    requires SizedSeq(g, original) && todo <= Elems(original) && todo != {}
    requires cs == Chunks(g, Filter(original, todo))
    ensures cs != []
  {
    FilterElems(original, todo);
    FilterSized(g, original, todo);
    assert Elems(original) * todo == todo;
    ChunksAreChunking(g, Filter(original, todo));
    NonemptyChunking(g, cs, Filter(original, todo));
  }

  lemma FilterSized(g: Cluster, s: seq<nat>, keep: set<nat>)
    requires SizedSeq(g, s)
    ensures SizedSeq(g, Filter(s, keep))
  {
    FilterElems(s, keep);
    forall x | x in Filter(s, keep) ensures x in s {
      assert x in Elems(Filter(s, keep));
    }
  }

  lemma FilterStill(original: seq<nat>, lin: seq<nat>, was: set<nat>, todo: set<nat>)
    requires Filter(lin, was) == Filter(original, was) && todo <= was
    ensures Filter(lin, todo) == Filter(original, todo)
  {
    FilterTwice(lin, was, todo);
    FilterTwice(original, was, todo);
    assert was * todo == todo;
  }

  /** Dropping exactly the first chunk leaves the other chunks as they are, and leaves as many
      transactions at the front of the remaining order done. */
  lemma FirstChunkDone(g: Cluster, original: seq<nat>, lin: seq<nat>, was: set<nat>, cs: seq<seq<nat>>, subset: set<nat>)
    requires NoDup(original) && SizedSeq(g, original)
    requires Filter(lin, was) == Filter(original, was)
    requires cs == Chunks(g, Filter(original, was)) && cs != [] && subset == Elems(cs[0])
    ensures Chunks(g, Filter(original, was - subset)) == cs[1..]
    ensures |subset| <= |lin|
    ensures Filter(lin[|subset|..], was - subset) == Filter(original, was - subset)
  {
    var todo := was - subset;
    var whole := Filter(original, was);
    var c, rest := cs[0], Flatten(cs[1..]);
    FilterElems(original, was);
    FilterSized(g, original, was);
    ChunksAreChunking(g, whole);
    ChunkingTail(g, cs, whole);
    assert whole == c + rest;
    NoDupConcat(c, rest);
    NoDupSize(c);
    RestOnly(c, rest, was, todo);
    FilterStill(original, lin, was, todo);
    FilterTwice(original, was, todo);
    assert was * todo == todo;
    assert SizedSeq(g, rest) by {
      assert forall x | x in rest :: x in whole;
    }
    ChunksAreChunking(g, rest);
    assert whole[|c|..] == rest;
    ChunkingUnique(g, cs[1..], Chunks(g, rest), rest);
    FilterElems(lin, was);
    FrontDone(lin, was, c, rest, todo);
  }

  lemma RestOnly(c: seq<nat>, rest: seq<nat>, was: set<nat>, todo: set<nat>)
    requires Elems(c) !! Elems(rest) && Elems(c + rest) <= was && todo == was - Elems(c)
    ensures Filter(c + rest, todo) == rest
  {
    ElemsConcat(c, rest);
    FilterConcat(c, rest, todo);
    FilterNone(c, todo);
    FilterAll(rest, todo);
  }

  lemma FrontDone(lin: seq<nat>, was: set<nat>, c: seq<nat>, rest: seq<nat>, todo: set<nat>)
    requires Filter(lin, was) == c + rest && todo == was - Elems(c) && |c| <= |lin|
    ensures Filter(lin[|c|..], todo) == Filter(lin, todo)
  {
    var front, back := lin[..|c|], lin[|c|..];
    assert lin == front + back;
    FilterConcat(front, back, was);
    FilterConcat(front, back, todo);
    FilterElems(front, was);
    FilterElems(front, todo);
    var f := Filter(front, was);
    assert f == (c + rest)[..|f|] == c[..|f|];
    assert Elems(f) <= Elems(c);
    FilterNone(front, todo);
  }
}
