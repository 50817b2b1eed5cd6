/** Feerate diagrams, and when one linearization is at least as good as another.

    `Dominates` compares linearizations by tangents: for every slope, the highest line of that slope
    that touches the first order's prefixes is no lower than the one touching the second's.
    `DominatesIffDiagram` shows that this is the same as the first diagram lying on or above the
    second at every size. */
module Diagrams {
  import opened FeeFracs
  import opened Clusters
  import opened Chunkings

  /** Some prefix of `lin` has an excess of at least `v` over the feerate of `rate`. */
  ghost predicate Reaches(g: Cluster, rate: FeeFrac, lin: seq<nat>, v: int) {
    exists i | 0 <= i <= |lin| :: Excess(rate, SeqRate(g, lin[..i])) >= v
  }

  ghost predicate Dominates(g: Cluster, a: seq<nat>, b: seq<nat>) {
    forall rate: FeeFrac, j: nat | rate.size > 0 && j <= |b| ::
      Reaches(g, rate, a, Excess(rate, SeqRate(g, b[..j])))
  }

  lemma ReachesAt(g: Cluster, rate: FeeFrac, lin: seq<nat>, i: nat, v: int)
    requires i <= |lin| && Excess(rate, SeqRate(g, lin[..i])) >= v
    ensures Reaches(g, rate, lin, v)
  {
  }

  lemma DominatesAt(g: Cluster, a: seq<nat>, b: seq<nat>, rate: FeeFrac, j: nat) returns (i: nat)
    requires Dominates(g, a, b) && rate.size > 0 && j <= |b|
    ensures i <= |a| && Excess(rate, SeqRate(g, a[..i])) >= Excess(rate, SeqRate(g, b[..j]))
  {
    assert Reaches(g, rate, a, Excess(rate, SeqRate(g, b[..j])));
    i :| 0 <= i <= |a| && Excess(rate, SeqRate(g, a[..i])) >= Excess(rate, SeqRate(g, b[..j]));
  }

  lemma DominatesRefl(g: Cluster, a: seq<nat>)
    ensures Dominates(g, a, a)
  {
  }

  lemma DominatesTrans(g: Cluster, a: seq<nat>, b: seq<nat>, c: seq<nat>)
    requires Dominates(g, a, b) && Dominates(g, b, c)
    ensures Dominates(g, a, c)
  {
    forall rate: FeeFrac, j: nat | rate.size > 0 && j <= |c|
      ensures Reaches(g, rate, a, Excess(rate, SeqRate(g, c[..j])))
    {
      var i :| 0 <= i <= |b| && Excess(rate, SeqRate(g, b[..i])) >= Excess(rate, SeqRate(g, c[..j]));
      assert Reaches(g, rate, a, Excess(rate, SeqRate(g, b[..i])));
    }
  }

  /** Improving what follows a common prefix improves the whole. */
  lemma DominatesAppend(g: Cluster, s: seq<nat>, a: seq<nat>, b: seq<nat>)
    requires Dominates(g, a, b)
    ensures Dominates(g, s + a, s + b)
  {
    forall rate: FeeFrac, j: nat | rate.size > 0 && j <= |s + b|
      ensures Reaches(g, rate, s + a, Excess(rate, SeqRate(g, (s + b)[..j])))
    {
      if j <= |s| {
        assert (s + b)[..j] == s[..j] == (s + a)[..j];
        assert 0 <= j <= |s + a| && Excess(rate, SeqRate(g, (s + a)[..j])) >= Excess(rate, SeqRate(g, (s + b)[..j]));
      } else {
        var k := j - |s|;
        assert Reaches(g, rate, a, Excess(rate, SeqRate(g, b[..k])));
        var i :| 0 <= i <= |a| && Excess(rate, SeqRate(g, a[..i])) >= Excess(rate, SeqRate(g, b[..k]));
        assert (s + b)[..j] == s + b[..k];
        assert (s + a)[..|s| + i] == s + a[..i];
        SeqRateConcat(g, s, b[..k]);
        SeqRateConcat(g, s, a[..i]);
        ExcessPlus(rate, SeqRate(g, s), SeqRate(g, b[..k]));
        ExcessPlus(rate, SeqRate(g, s), SeqRate(g, a[..i]));
      }
    }
  }

  /** Every prefix is matched, at any slope, by one that ends at a chunk boundary: prefix points lie
      on or below the chunk diagram. */
  lemma {:induction false} BestBoundary(g: Cluster, cs: seq<seq<nat>>, lin: seq<nat>, rate: FeeFrac, k: nat)
    returns (m: nat)
    requires IsChunking(g, cs, lin) && SizedSeq(g, lin)
    requires rate.size > 0 && k <= |lin|
    ensures m <= |cs|
    ensures Excess(rate, SeqRate(g, Flatten(cs[..m]))) >= Excess(rate, SeqRate(g, lin[..k]))
    decreases |cs|
  {
    if k == 0 {
      return 0;
    }
    NonemptyChunking(g, cs, lin);
    ChunkingTail(g, cs, lin);
    var c, rest := cs[0], lin[|cs[0]|..];
    if Excess(rate, SeqRate(g, c)) <= 0 {
      PrefixBelow(g, cs, lin, rate, k);
      return 0;
    } else if k <= |c| {
      assert cs[..1] == [c];
      FlattenOne(c);
      assert lin[..k] == c[..k];
      if k < |c| {
        assert forall i | i in c :: i in lin;
        SuffixAbove(g, c, k, rate);
      } else {
        assert c[..k] == c;
      }
      return 1;
    } else {
      var n := BestBoundary(g, cs[1..], rest, rate, k - |c|);
      var f := Flatten(cs[1..][..n]);
      assert cs[..n + 1] == [c] + cs[1..][..n];
      FlattenConcat([c], cs[1..][..n]);
      FlattenOne(c);
      assert lin[..k] == c + rest[..k - |c|];
      SeqRateConcat(g, c, f);
      SeqRateConcat(g, c, rest[..k - |c|]);
      ExcessPlus(rate, SeqRate(g, c), SeqRate(g, f));
      ExcessPlus(rate, SeqRate(g, c), SeqRate(g, rest[..k - |c|]));
      return n + 1;
    }
  }

  // ----- the diagram itself

  function SumRates(rs: seq<FeeFrac>): FeeFrac {
    if rs == [] then EMPTY else rs[0].Plus(SumRates(rs[1..]))
  }

  function ChunkRates(g: Cluster, cs: seq<seq<nat>>): seq<FeeFrac> {
    seq(|cs|, i requires 0 <= i < |cs| => SeqRate(g, cs[i]))
  }

  ghost predicate PositiveRates(rs: seq<FeeFrac>) {
    forall i | 0 <= i < |rs| :: rs[i].size > 0
  }

  /** The fee at size `x` of the diagram through the cumulative points of `rs`: linear between them
      and constant beyond the last. */
  ghost function Height(rs: seq<FeeFrac>, x: real): real
    requires PositiveRates(rs)
  {
    if rs == [] then 0.0
    else if x <= rs[0].size as real then rs[0].fee as real * (x / rs[0].size as real)
    else rs[0].fee as real + Height(rs[1..], x - rs[0].size as real)
  }

  /** The diagram of a linearization: that of its chunks. */
  ghost function Diagram(g: Cluster, lin: seq<nat>, x: real): real
    requires SizedSeq(g, lin)
  {
    ChunksAreChunking(g, lin);
    ChunkRatesPositive(g, Chunks(g, lin), lin);
    Height(ChunkRates(g, Chunks(g, lin)), x)
  }

  lemma ChunkRatesPositive(g: Cluster, cs: seq<seq<nat>>, lin: seq<nat>)
    requires IsChunking(g, cs, lin) && SizedSeq(g, lin)
    ensures PositiveRates(ChunkRates(g, cs))
  {
    forall i | 0 <= i < |cs| ensures SeqRate(g, cs[i]).size > 0 {
      ChunkInside(cs, i);
      assert Tight(g, cs[i]);
      SeqRatePositive(g, cs[i]);
    }
  }

  lemma {:induction false} ChunkInside(cs: seq<seq<nat>>, i: nat)
    requires i < |cs|
    ensures forall x | x in cs[i] :: x in Flatten(cs)
  {
    if i > 0 {
      ChunkInside(cs[1..], i - 1);
    }
  }

  /** Height of the point (x, y) above the line of the given slope through the origin, scaled. */
  ghost function RealExcess(rate: FeeFrac, x: real, y: real): real {
    y * rate.size as real - rate.fee as real * x
  }

  lemma RealExcessShift(rate: FeeFrac, f: FeeFrac, x: real, y: real)
    ensures RealExcess(rate, x + f.size as real, y + f.fee as real) == RealExcess(rate, x, y) + Excess(rate, f) as real
  {
    assert (f.fee * rate.size - rate.fee * f.size) as real
        == f.fee as real * rate.size as real - rate.fee as real * f.size as real;
  }

  /** A point on the first segment divides it in some ratio t. */
  lemma FirstSegment(rate: FeeFrac, f: FeeFrac, x: real) returns (t: real)
    requires f.size > 0 && 0.0 <= x <= f.size as real
    ensures 0.0 <= t <= 1.0
    ensures RealExcess(rate, x, f.fee as real * (x / f.size as real)) == t * Excess(rate, f) as real
  {
    t := x / f.size as real;
    assert t * f.size as real == x;
    RealExcessShift(rate, f, 0.0, 0.0);
    calc {
      RealExcess(rate, x, f.fee as real * t);
      f.fee as real * t * rate.size as real - rate.fee as real * (t * f.size as real);
      t * (f.fee as real * rate.size as real - rate.fee as real * f.size as real);
    }
  }

  /** Below every point of a diagram, in the direction of any slope, there is one of its vertices. */
  lemma {:induction false} VertexAbove(rs: seq<FeeFrac>, rate: FeeFrac, x: real) returns (m: nat)
    requires PositiveRates(rs) && 0.0 <= x <= SumRates(rs).size as real
    ensures m <= |rs|
    ensures Excess(rate, SumRates(rs[..m])) as real >= RealExcess(rate, x, Height(rs, x))
  {
    if rs == [] {
      return 0;
    }
    var f := rs[0];
    if x <= f.size as real {
      var t := FirstSegment(rate, f, x);
      SumRatesOne(f);
      assert rs[..1] == [f] && rs[..0] == [];
      var e := Excess(rate, f) as real;
      if e >= 0.0 {
        assert t * e <= 1.0 * e;
        return 1;
      } else {
        assert t * e <= 0.0;
        return 0;
      }
    } else {
      var n := VertexAbove(rs[1..], rate, x - f.size as real);
      assert rs[..n + 1][1..] == rs[1..][..n];
      ExcessPlus(rate, f, SumRates(rs[1..][..n]));
      RealExcessShift(rate, f, x - f.size as real, Height(rs[1..], x - f.size as real));
      return n + 1;
    }
  }

  lemma SumRatesOne(f: FeeFrac)
    ensures SumRates([f]) == f
  {
    var s := [f];
    assert SumRates(s[1..]) == EMPTY;
  }

  lemma {:induction false} SumChunkRates(g: Cluster, cs: seq<seq<nat>>)
    ensures SumRates(ChunkRates(g, cs)) == SeqRate(g, Flatten(cs))
  {
    if cs != [] {
      assert ChunkRates(g, cs)[1..] == ChunkRates(g, cs[1..]);
      SumChunkRates(g, cs[1..]);
      SeqRateConcat(g, cs[0], Flatten(cs[1..]));
    }
  }

  /** No prefix of `lin` rises more than `v` above the line of the given slope. */
  ghost predicate Supports(g: Cluster, lin: seq<nat>, rate: FeeFrac, v: real) {
    forall i | 0 <= i <= |lin| :: Excess(rate, SeqRate(g, lin[..i])) as real <= v
  }

  /** At every point of the diagram of a chunking, the slope of one of its chunks gives a line that
      no prefix rises above. */
  lemma {:induction false} SupportingLine(g: Cluster, cs: seq<seq<nat>>, lin: seq<nat>, x: real) returns (rate: FeeFrac)
    requires IsChunking(g, cs, lin) && SizedSeq(g, lin) && cs != []
    requires PositiveRates(ChunkRates(g, cs)) && 0.0 <= x <= SeqRate(g, lin).size as real
    ensures rate.size > 0 && Excess(rate, SeqRate(g, cs[0])) >= 0
    ensures Supports(g, lin, rate, RealExcess(rate, x, Height(ChunkRates(g, cs), x)))
    decreases |cs|
  {
    ChunkingTail(g, cs, lin);
    var C := SeqRate(g, cs[0]);
    var rs := ChunkRates(g, cs);
    assert rs[0] == C;
    if x <= C.size as real {
      rate := C;
      SupportsFirst(g, cs, lin, x);
    } else {
      var rest := Flatten(cs[1..]);
      SeqRateConcat(g, cs[0], rest);
      assert |cs| > 1 by {
        assert |cs| == 1 ==> rest == [];
      }
      var rs' := ChunkRates(g, cs[1..]);
      assert rs[1..] == rs';
      var x' := x - C.size as real;
      rate := SupportingLine(g, cs[1..], rest, x');
      SecondBelowFirst(g, cs, lin, rate);
      RealExcessShift(rate, C, x', Height(rs', x'));
      SupportsLater(g, cs[0], rest, lin, rate, RealExcess(rate, x', Height(rs', x')));
    }
  }

  lemma SupportsFirst(g: Cluster, cs: seq<seq<nat>>, lin: seq<nat>, x: real)
    requires IsChunking(g, cs, lin) && SizedSeq(g, lin) && cs != []
    requires PositiveRates(ChunkRates(g, cs)) && 0.0 <= x <= SeqRate(g, cs[0]).size as real
    ensures Excess(SeqRate(g, cs[0]), SeqRate(g, cs[0])) == 0
    ensures Supports(g, lin, SeqRate(g, cs[0]), RealExcess(SeqRate(g, cs[0]), x, Height(ChunkRates(g, cs), x)))
  {
    var C := SeqRate(g, cs[0]);
    assert ChunkRates(g, cs)[0] == C;
    var t := FirstSegment(C, C, x);
    Self(C);
    assert RealExcess(C, x, Height(ChunkRates(g, cs), x)) == 0.0;
    forall i | 0 <= i <= |lin| ensures Excess(C, SeqRate(g, lin[..i])) <= 0 {
      PrefixBelow(g, cs, lin, C, i);
    }
  }

  lemma SupportsLater(g: Cluster, c: seq<nat>, rest: seq<nat>, lin: seq<nat>, rate: FeeFrac, v: real)
    requires lin == c + rest && SizedSeq(g, lin)
    requires Tight(g, c) && rate.size > 0 && Excess(rate, SeqRate(g, c)) >= 0
    requires Supports(g, rest, rate, v)
    ensures Supports(g, lin, rate, v + Excess(rate, SeqRate(g, c)) as real)
  {
    forall i | 0 <= i <= |lin|
      ensures Excess(rate, SeqRate(g, lin[..i])) as real <= v + Excess(rate, SeqRate(g, c)) as real
    {
      LaterPrefix(g, c, rest, lin, rate, i);
      var k := if i < |c| then 0 else i - |c|;
      assert Excess(rate, SeqRate(g, rest[..k])) as real <= v;
    }
  }

  lemma SecondBelowFirst(g: Cluster, cs: seq<seq<nat>>, lin: seq<nat>, rate: FeeFrac)
    requires IsChunking(g, cs, lin) && SizedSeq(g, lin) && |cs| > 1
    requires rate.size > 0 && Excess(rate, SeqRate(g, cs[1])) >= 0
    ensures Excess(rate, SeqRate(g, cs[0])) >= 0
  {
    ChunkRatesPositive(g, cs, lin);
    var C, D := SeqRate(g, cs[0]), SeqRate(g, cs[1]);
    assert ChunkRates(g, cs)[0] == C && ChunkRates(g, cs)[1] == D;
    ExcessSwap(D, C);
    ExcessSwap(C, D);
    ExcessTransitive(rate, D, C);
  }

  /** Against a rate its first chunk reaches, a prefix does no better than one past that chunk. */
  lemma LaterPrefix(g: Cluster, c: seq<nat>, rest: seq<nat>, lin: seq<nat>, rate: FeeFrac, i: nat)
    requires lin == c + rest && SizedSeq(g, lin) && i <= |lin|
    requires Tight(g, c) && rate.size > 0 && Excess(rate, SeqRate(g, c)) >= 0
    ensures Excess(rate, SeqRate(g, lin[..i])) <=
            Excess(rate, SeqRate(g, c)) + Excess(rate, SeqRate(g, rest[..if i < |c| then 0 else i - |c|]))
  {
    if i < |c| {
      assert lin[..i] == c[..i];
      assert rest[..0] == [];
      if i > 0 {
        assert forall x | x in c :: x in lin;
        SuffixAbove(g, c, i, rate);
      }
    } else {
      var r := rest[..i - |c|];
      assert lin[..i] == c + r;
      SeqRateConcat(g, c, r);
      ExcessPlus(rate, SeqRate(g, c), SeqRate(g, r));
    }
  }

  lemma {:induction false} HeightBeyond(rs: seq<FeeFrac>, x: real)
    requires PositiveRates(rs) && x >= SumRates(rs).size as real
    ensures Height(rs, x) == SumRates(rs).fee as real
  {
    if rs != [] {
      SumRatesSize(rs[1..]);
      var f := rs[0];
      if x <= f.size as real {
        assert x == f.size as real && SumRates(rs[1..]).size == 0;
        assert rs[1..] == [];
        assert x / f.size as real == 1.0;
      } else {
        HeightBeyond(rs[1..], x - f.size as real);
      }
    }
  }

  lemma {:induction false} SumRatesSize(rs: seq<FeeFrac>)
    requires PositiveRates(rs)
    ensures SumRates(rs).size >= 0
    ensures SumRates(rs).size == 0 ==> rs == []
  {
    if rs != [] {
      SumRatesSize(rs[1..]);
    }
  }

  /** A linearization dominates another exactly when its feerate diagram lies on or above the other
      one's at every size. */
  lemma DominatesIffDiagram(g: Cluster, a: seq<nat>, b: seq<nat>)
    requires SizedSeq(g, a) && SizedSeq(g, b) && SeqRate(g, a) == SeqRate(g, b)
    ensures Dominates(g, a, b) <==> forall x: real | x >= 0.0 :: Diagram(g, a, x) >= Diagram(g, b, x)
  {
    if Dominates(g, a, b) {
      forall x: real | x >= 0.0 ensures Diagram(g, a, x) >= Diagram(g, b, x) {
        DominatesThenAbove(g, a, b, x);
      }
    }
    if forall x: real | x >= 0.0 :: Diagram(g, a, x) >= Diagram(g, b, x) {
      forall rate: FeeFrac, j: nat | rate.size > 0 && j <= |b|
        ensures Reaches(g, rate, a, Excess(rate, SeqRate(g, b[..j])))
      {
        AboveThenReaches(g, a, b, rate, j);
      }
    }
  }

  lemma ChunkFacts(g: Cluster, lin: seq<nat>)
    requires SizedSeq(g, lin)
    ensures IsChunking(g, Chunks(g, lin), lin)
    ensures PositiveRates(ChunkRates(g, Chunks(g, lin)))
    ensures SumRates(ChunkRates(g, Chunks(g, lin))) == SeqRate(g, lin)
  {
    ChunksAreChunking(g, lin);
    ChunkRatesPositive(g, Chunks(g, lin), lin);
    SumChunkRates(g, Chunks(g, lin));
  }

  /** The vertices of a diagram are prefixes of the linearization. */
  lemma VertexIsPrefix(g: Cluster, cs: seq<seq<nat>>, m: nat)
    requires m <= |cs|
    ensures Flatten(cs[..m]) <= Flatten(cs)
    ensures SumRates(ChunkRates(g, cs)[..m]) == SeqRate(g, Flatten(cs[..m]))
  {
    FlattenPrefix(cs, m);
    assert ChunkRates(g, cs)[..m] == ChunkRates(g, cs[..m]);
    SumChunkRates(g, cs[..m]);
  }

  lemma DominatesThenAbove(g: Cluster, a: seq<nat>, b: seq<nat>, x: real)
    requires SizedSeq(g, a) && SizedSeq(g, b) && SeqRate(g, a) == SeqRate(g, b)
    requires Dominates(g, a, b) && x >= 0.0
    ensures Diagram(g, a, x) >= Diagram(g, b, x)
  {
    ImprovesThenAbove(g, a, g, b, x);
  }

  /** Like `Dominates`, between orders of clusters with different fees. */
  ghost predicate Improves(h: Cluster, a: seq<nat>, g: Cluster, b: seq<nat>) {
    forall rate: FeeFrac, j: nat | rate.size > 0 && j <= |b| ::
      Reaches(h, rate, a, Excess(rate, SeqRate(g, b[..j])))
  }

  lemma ImprovesThenAbove(h: Cluster, a: seq<nat>, g: Cluster, b: seq<nat>, x: real)
    requires SizedSeq(h, a) && SizedSeq(g, b) && SeqRate(h, a).size == SeqRate(g, b).size && SeqRate(h, a).fee >= SeqRate(g, b).fee
    requires Improves(h, a, g, b) && x >= 0.0
    ensures Diagram(h, a, x) >= Diagram(g, b, x)
  {
    var A, B := Chunks(h, a), Chunks(g, b);
    ChunkFacts(h, a);
    ChunkFacts(g, b);
    if x >= SeqRate(h, a).size as real {
      HeightBeyond(ChunkRates(h, A), x);
      HeightBeyond(ChunkRates(g, B), x);
    } else {
      NonemptyChunking(h, A, a);
      var rate := SupportingLine(h, A, a, x);
      var m := VertexAbove(ChunkRates(g, B), rate, x);
      VertexIsPrefix(g, B, m);
      var j := |Flatten(B[..m])|;
      assert b[..j] == Flatten(B[..m]);
      assert Reaches(h, rate, a, Excess(rate, SeqRate(g, b[..j])));
      var i :| 0 <= i <= |a| && Excess(rate, SeqRate(h, a[..i])) >= Excess(rate, SeqRate(g, b[..j]));
      HigherPoint(rate, x, Diagram(g, b, x), Diagram(h, a, x));
    }
  }

  lemma HigherPoint(rate: FeeFrac, x: real, y: real, z: real)
    requires rate.size > 0 && RealExcess(rate, x, y) <= RealExcess(rate, x, z)
    ensures y <= z
  {
    var s := rate.size as real;
    assert y * s <= z * s;
    assert y > z ==> (y - z) * s > 0.0;
  }

  lemma AboveThenReaches(g: Cluster, a: seq<nat>, b: seq<nat>, rate: FeeFrac, j: nat)
    requires SizedSeq(g, a) && SizedSeq(g, b) && SeqRate(g, a) == SeqRate(g, b)
    requires forall x: real | x >= 0.0 :: Diagram(g, a, x) >= Diagram(g, b, x)
    requires rate.size > 0 && j <= |b|
    ensures Reaches(g, rate, a, Excess(rate, SeqRate(g, b[..j])))
  {
    var A, B := Chunks(g, a), Chunks(g, b);
    ChunkFacts(g, a);
    ChunkFacts(g, b);
    var m := BestBoundary(g, B, b, rate, j);
    VertexIsPrefix(g, B, m);
    HeightAtVertex(ChunkRates(g, B), m);
    var p := SeqRate(g, Flatten(B[..m]));
    var y := Diagram(g, a, p.size as real);
    assert y >= Diagram(g, b, p.size as real) == p.fee as real;
    PointReaches(g, a, rate, p);
  }

  /** What lies on or below the diagram is reached by some prefix. */
  lemma PointReaches(g: Cluster, a: seq<nat>, rate: FeeFrac, p: FeeFrac)
    requires SizedSeq(g, a) && rate.size > 0 && 0 <= p.size <= SeqRate(g, a).size
    requires Diagram(g, a, p.size as real) >= p.fee as real
    ensures Reaches(g, rate, a, Excess(rate, p))
  {
    hide Height, Chunks, SeqRate, SumRates, Flatten, IsChunking;
    var A := Chunks(g, a);
    ChunkFacts(g, a);
    WholeOrder(g, a);
    var n := VertexAbove(ChunkRates(g, A), rate, p.size as real);
    VertexIsPrefix(g, A, n);
    RealExcessShift(rate, p, 0.0, 0.0);
    LowerPoint(rate, p.size as real, p.fee as real, Diagram(g, a, p.size as real));
    var i := |Flatten(A[..n])|;
    assert a[..i] == Flatten(A[..n]);
  }

  lemma WholeOrder(g: Cluster, a: seq<nat>)
    requires SizedSeq(g, a)
    ensures Flatten(Chunks(g, a)) == a
  {
    ChunksAreChunking(g, a);
  }

  lemma LowerPoint(rate: FeeFrac, x: real, y: real, z: real)
    requires rate.size > 0 && y <= z
    ensures RealExcess(rate, x, y) <= RealExcess(rate, x, z)
  {
    assert (z - y) * rate.size as real >= 0.0;
  }

  /** The diagram passes through its vertices. */
  lemma {:induction false} HeightAtVertex(rs: seq<FeeFrac>, m: nat)
    requires PositiveRates(rs) && m <= |rs|
    ensures 0 <= SumRates(rs[..m]).size <= SumRates(rs).size
    ensures Height(rs, SumRates(rs[..m]).size as real) == SumRates(rs[..m]).fee as real
  {
    SumRatesSize(rs);
    if m > 0 {
      assert rs[..m][1..] == rs[1..][..m - 1];
      HeightAtVertex(rs[1..], m - 1);
      if SumRates(rs[1..][..m - 1]).size == 0 {
        SumRatesSize(rs[1..][..m - 1]);
        WholeSegment(rs[0]);
      }
    } else {
      HeightAtOrigin(rs);
    }
  }

  lemma WholeSegment(f: FeeFrac)
    requires f.size > 0
    ensures f.fee as real * (f.size as real / f.size as real) == f.fee as real
  {
    assert f.size as real / f.size as real == 1.0;
  }

  lemma HeightAtOrigin(rs: seq<FeeFrac>)
    requires PositiveRates(rs)
    ensures Height(rs, 0.0) == 0.0
  {
    if rs != [] {
      assert 0.0 / rs[0].size as real == 0.0;
    }
  }
}
