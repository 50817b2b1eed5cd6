/** Chunking a linearization by feerate (src/cluster_linearize.h, ChunkLinearization), and the
    characterization of chunkings that everything else rests on. */
module Chunkings {
  import opened FeeFracs
  import opened Positions
  import opened Clusters

  function Flatten(cs: seq<seq<nat>>): seq<nat> {
    if cs == [] then [] else cs[0] + Flatten(cs[1..])
  }

  lemma {:induction false} FlattenConcat(a: seq<seq<nat>>, b: seq<seq<nat>>)
    ensures Flatten(a + b) == Flatten(a) + Flatten(b)
  {
    if a == [] {
      assert a + b == b;
    } else {
      assert (a + b)[1..] == a[1..] + b;
      FlattenConcat(a[1..], b);
    }
  }

  lemma FlattenOne(c: seq<nat>)
    ensures Flatten([c]) == c
  {
    var cs := [c];
    assert cs[1..] == [] && Flatten(cs[1..]) == [];
  }

  lemma FlattenSnoc(cs: seq<seq<nat>>, c: seq<nat>)
    ensures Flatten(cs + [c]) == Flatten(cs) + c
  {
    FlattenConcat(cs, [c]);
    FlattenOne(c);
  }

  lemma FlattenPrefix(cs: seq<seq<nat>>, m: nat)
    requires m <= |cs|
    ensures Flatten(cs) == Flatten(cs[..m]) + Flatten(cs[m..])
  {
    assert cs == cs[..m] + cs[m..];
    FlattenConcat(cs[..m], cs[m..]);
  }

  lemma FlattenTake(cs: seq<seq<nat>>, k: nat)
    requires k < |cs|
    ensures Flatten(cs[..k + 1]) == Flatten(cs[..k]) + cs[k]
  {
    assert cs[..k + 1] == cs[..k] + [cs[k]];
    FlattenSnoc(cs[..k], cs[k]);
  }

  ghost predicate SizedSeq(g: Cluster, s: seq<nat>) {
    forall i | i in s :: g.Rate(i).size > 0
  }

  lemma AllSized(g: Cluster, lin: seq<nat>)
    requires g.Sized() && Elems(lin) <= g.used
    ensures SizedSeq(g, lin)
  {
    forall i | i in lin ensures g.Rate(i).size > 0 {
      assert i in Elems(lin);
    }
  }

  /** Add chunk `c` behind `cs`, absorbing final chunks while they have a lower feerate. */
  function Absorb(g: Cluster, cs: seq<seq<nat>>, c: seq<nat>): seq<seq<nat>>
    decreases |cs|
  {
    if cs != [] && SeqRate(g, c).Higher(SeqRate(g, cs[|cs| - 1])) then
      Absorb(g, cs[..|cs| - 1], cs[|cs| - 1] + c)
    else
      cs + [c]
  }

  /** The chunks of a linearization, as the source computes them. */
  function Chunks(g: Cluster, lin: seq<nat>): seq<seq<nat>> {
    if lin == [] then []
    else Absorb(g, Chunks(g, lin[..|lin| - 1]), [lin[|lin| - 1]])
  }

  /** Every proper prefix of `c` has a strictly lower feerate than all of `c`. */
  ghost predicate Tight(g: Cluster, c: seq<nat>) {
    && c != []
    && forall k | 0 < k < |c| :: SeqRate(g, c).Higher(SeqRate(g, c[..k]))
  }

  ghost predicate AllTight(g: Cluster, cs: seq<seq<nat>>) {
    forall k | 0 <= k < |cs| :: Tight(g, cs[k])
  }

  /** Feerates do not increase along the sequence. */
  ghost predicate Descending(g: Cluster, cs: seq<seq<nat>>) {
    forall k | 0 < k < |cs| :: !SeqRate(g, cs[k]).Higher(SeqRate(g, cs[k - 1]))
  }

  /** What it means to be the chunking of `lin`, without saying how to compute it. */
  ghost predicate IsChunking(g: Cluster, cs: seq<seq<nat>>, lin: seq<nat>) {
    Flatten(cs) == lin && AllTight(g, cs) && Descending(g, cs)
  }

  /** The excess of the parts of a sum over the feerate of the sum. */
  lemma Mediant(a: FeeFrac, b: FeeFrac)
    ensures Excess(a.Plus(b), b) == Excess(a, b)
    ensures Excess(a.Plus(b), a) == -Excess(a, b)
    ensures Excess(a, a.Plus(b)) == Excess(a, b)
    ensures Excess(b, a.Plus(b)) == -Excess(a, b)
  {
    var c := a.Plus(b);
    calc {
      Excess(c, b);
      b.fee * (a.size + b.size) - (a.fee + b.fee) * b.size;
      b.fee * a.size - a.fee * b.size;
    }
    ExcessSwap(a, b);
    ExcessSwap(a, c);
    ExcessSwap(b, c);
    ExcessPlus(c, a, b);
    assert Excess(c, c) == 0;
  }

  lemma Self(a: FeeFrac)
    ensures Excess(a, a) == 0
  {
  }

  /** Two tight sequences, the second of higher feerate, join into a tight one. */
  lemma TightConcat(g: Cluster, p: seq<nat>, c: seq<nat>)
    requires Tight(g, p) && Tight(g, c) && SizedSeq(g, p + c)
    requires SeqRate(g, c).Higher(SeqRate(g, p))
    ensures Tight(g, p + c)
  {
    var pc := p + c;
    SeqRateConcat(g, p, c);
    var P, C, PC := SeqRate(g, p), SeqRate(g, c), SeqRate(g, pc);
    SeqRatePositive(g, p);
    SeqRatePositive(g, c);
    ExcessSwap(C, P);
    Mediant(P, C);
    forall k | 0 < k < |pc| ensures PC.Higher(SeqRate(g, pc[..k])) {
      var q := SeqRate(g, pc[..k]);
      ExcessSwap(PC, q);
      if k < |p| {
        assert pc[..k] == p[..k];
        SeqRatePositive(g, p[..k]);
        ExcessSwap(P, q);
        ExcessTransitive(q, P, PC);
      } else if k == |p| {
        assert pc[..k] == p;
      } else {
        SuffixAbove(g, c, k - |p|, PC);
        assert pc[k..] == c[k - |p|..];
        PrefixLower(g, pc, k);
      }
    }
  }

  lemma PrefixLower(g: Cluster, s: seq<nat>, k: nat)
    requires k <= |s| && Excess(SeqRate(g, s), SeqRate(g, s[k..])) > 0
    ensures SeqRate(g, s).Higher(SeqRate(g, s[..k]))
  {
    var S, Q, E := SeqRate(g, s), SeqRate(g, s[..k]), SeqRate(g, s[k..]);
    assert s == s[..k] + s[k..];
    SeqRateConcat(g, s[..k], s[k..]);
    ExcessPlus(S, Q, E);
    Self(S);
    ExcessSwap(Q, S);
    ExcessSwap(S, Q);
  }

  /** What remains of a tight sequence after a proper prefix beats every rate the whole does not
      fall below. */
  lemma SuffixAbove(g: Cluster, c: seq<nat>, k: nat, rate: FeeFrac)
    requires Tight(g, c) && SizedSeq(g, c) && 0 < k < |c|
    requires rate.size > 0 && Excess(rate, SeqRate(g, c)) >= 0
    ensures Excess(rate, SeqRate(g, c[k..])) > 0
    ensures Excess(rate, SeqRate(g, c)) > Excess(rate, SeqRate(g, c[..k]))
  {
    assert c == c[..k] + c[k..];
    SeqRateConcat(g, c[..k], c[k..]);
    var C, D, E := SeqRate(g, c), SeqRate(g, c[..k]), SeqRate(g, c[k..]);
    SeqRatePositive(g, c);
    SeqRatePositive(g, c[k..]);
    ExcessSwap(C, D);
    ExcessSwap(D, C);
    ExcessPlus(C, D, E);
    Self(C);
    ExcessTransitive(rate, C, E);
    ExcessPlus(rate, D, E);
  }

  lemma {:induction false} AbsorbChunks(g: Cluster, cs: seq<seq<nat>>, c: seq<nat>)
    requires AllTight(g, cs) && Descending(g, cs) && Tight(g, c)
    requires SizedSeq(g, Flatten(cs)) && SizedSeq(g, c)
    ensures IsChunking(g, Absorb(g, cs, c), Flatten(cs) + c)
    decreases |cs|
  {
    if cs != [] && SeqRate(g, c).Higher(SeqRate(g, cs[|cs| - 1])) {
      var init, last := cs[..|cs| - 1], cs[|cs| - 1];
      assert cs == init + [last];
      FlattenConcat(init, [last]);
      FlattenOne(last);
      assert Flatten(cs) + c == Flatten(init) + (last + c);
      TightConcat(g, last, c);
      AbsorbChunks(g, init, last + c);
    } else {
      FlattenConcat(cs, [c]);
      FlattenOne(c);
    }
  }

  /** The computed chunks are a chunking. */
  lemma {:induction false} ChunksAreChunking(g: Cluster, lin: seq<nat>)
    requires SizedSeq(g, lin)
    ensures IsChunking(g, Chunks(g, lin), lin)
  {
    if lin != [] {
      var init, last := lin[..|lin| - 1], [lin[|lin| - 1]];
      assert lin == init + last;
      ChunksAreChunking(g, init);
      AbsorbChunks(g, Chunks(g, init), last);
    }
  }

  lemma ChunkingTail(g: Cluster, cs: seq<seq<nat>>, lin: seq<nat>)
    requires IsChunking(g, cs, lin) && cs != []
    ensures lin == cs[0] + Flatten(cs[1..])
    ensures IsChunking(g, cs[1..], lin[|cs[0]|..])
    ensures Tight(g, cs[0])
  {
  }

  /** No prefix of a linearization lies above a line that its first chunk does not rise above. */
  lemma {:induction false} PrefixBelow(g: Cluster, cs: seq<seq<nat>>, lin: seq<nat>, rate: FeeFrac, k: nat)
    requires IsChunking(g, cs, lin) && SizedSeq(g, lin) && cs != []
    requires rate.size > 0 && Excess(rate, SeqRate(g, cs[0])) <= 0
    requires k <= |lin|
    ensures Excess(rate, SeqRate(g, lin[..k])) <= 0
    decreases |cs|
  {
    ChunkingTail(g, cs, lin);
    var c, rest := cs[0], Flatten(cs[1..]);
    assert forall i | i in c :: i in lin;
    SeqRatePositive(g, c);
    if k == 0 {
    } else if k < |c| {
      assert lin[..k] == c[..k];
      SeqRatePositive(g, c[..k]);
      var C, D := SeqRate(g, c), SeqRate(g, c[..k]);
      ExcessSwap(C, D);
      ExcessSwap(rate, C);
      ExcessSwap(rate, D);
      ExcessTransitive(D, C, rate);
    } else {
      assert lin[..k] == c + rest[..k - |c|];
      SeqRateConcat(g, c, rest[..k - |c|]);
      ExcessPlus(rate, SeqRate(g, c), SeqRate(g, rest[..k - |c|]));
      if |cs| > 1 {
        var d := cs[1];
        ChunkingTail(g, cs[1..], rest);
        assert forall i | i in d :: i in lin;
        SeqRatePositive(g, d);
        var C, D := SeqRate(g, c), SeqRate(g, d);
        ExcessSwap(D, C);
        ExcessSwap(C, D);
        ExcessSwap(rate, C);
        ExcessSwap(rate, D);
        ExcessTransitive(D, C, rate);
        PrefixBelow(g, cs[1..], rest, rate, k - |c|);
      } else {
        assert rest == [];
      }
    }
  }

  /** Chunkings are unique. */
  lemma {:induction false} ChunkingUnique(g: Cluster, cs: seq<seq<nat>>, ds: seq<seq<nat>>, lin: seq<nat>)
    requires IsChunking(g, cs, lin) && IsChunking(g, ds, lin) && SizedSeq(g, lin)
    ensures cs == ds
    decreases |cs|
  {
    if cs != [] && ds != [] {
      ChunkingTail(g, cs, lin);
      ChunkingTail(g, ds, lin);
      FirstChunkNotShorter(g, cs, ds, lin);
      FirstChunkNotShorter(g, ds, cs, lin);
      assert cs[0] == lin[..|cs[0]|] == ds[0];
      ChunkingUnique(g, cs[1..], ds[1..], lin[|cs[0]|..]);
      assert cs == [cs[0]] + cs[1..];
      assert ds == [ds[0]] + ds[1..];
    } else {
      NonemptyChunking(g, cs, lin);
      NonemptyChunking(g, ds, lin);
    }
  }

  lemma NonemptyChunking(g: Cluster, cs: seq<seq<nat>>, lin: seq<nat>)
    requires IsChunking(g, cs, lin)
    ensures cs == [] <==> lin == []
  {
    if cs != [] {
      ChunkingTail(g, cs, lin);
    }
  }

  lemma FirstChunkNotShorter(g: Cluster, cs: seq<seq<nat>>, ds: seq<seq<nat>>, lin: seq<nat>)
    requires IsChunking(g, cs, lin) && IsChunking(g, ds, lin) && SizedSeq(g, lin)
    requires cs != [] && ds != []
    ensures |cs[0]| >= |ds[0]|
  {
    ChunkingTail(g, cs, lin);
    ChunkingTail(g, ds, lin);
    var c, d := cs[0], ds[0];
    assert c == lin[..|c|] && d == lin[..|d|];
    if |c| < |d| {
      assert d[..|c|] == c;
      assert forall i | i in c :: i in lin;
      SeqRatePositive(g, c);
      Self(SeqRate(g, c));
      ExcessSwap(SeqRate(g, d), SeqRate(g, c));
      PrefixBelow(g, cs, lin, SeqRate(g, c), |d|);
    }
  }
}
