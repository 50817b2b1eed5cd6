/** Comparing two feerate diagrams given by their chunks, walking along both at once. */
module DiagramComparing {
  import opened FeeFracs
  import opened Clusters
  import opened Chunkings
  import opened Diagrams

  datatype Ordering = Less | Equivalent | Greater | Unordered

  /** Where a walk along one diagram stands: the chunks passed, and the point they lead to. */
  datatype Cursor = Cursor(rates: seq<FeeFrac>, next: nat, accum: FeeFrac) {
    ghost predicate Valid() {
      PositiveRates(rates) && next <= |rates| && accum == SumRates(rates[..next])
    }

    predicate Done() {
      next >= |rates|
    }

    function NextPoint(): FeeFrac
      requires !Done()
    {
      rates[next].Plus(accum)
    }

    function Advance(): Cursor
      requires !Done()
    {
      Cursor(rates, next + 1, accum.Plus(rates[next]))
    }

    /** The feerate from here on: beyond the last chunk the diagram is horizontal. */
    function Slope(): FeeFrac {
      if Done() then FeeFrac(0, 1) else rates[next]
    }

    ghost predicate Spans(x: real) {
      accum.size as real <= x && (!Done() ==> x <= NextPoint().size as real)
    }
  }

  /** The first diagram is nowhere below the second. */
  ghost predicate Above(a: seq<FeeFrac>, b: seq<FeeFrac>)
    requires PositiveRates(a) && PositiveRates(b)
  {
    forall x: real | x >= 0.0 :: Height(a, x) >= Height(b, x)
  }

  ghost predicate AboveUpTo(a: seq<FeeFrac>, b: seq<FeeFrac>, m: real)
    requires PositiveRates(a) && PositiveRates(b)
  {
    forall x: real | 0.0 <= x <= m :: Height(a, x) >= Height(b, x)
  }

  // ----- diagrams between neighbouring points

  lemma {:induction false} SumSnoc(rs: seq<FeeFrac>, f: FeeFrac)
    ensures SumRates(rs + [f]) == SumRates(rs).Plus(f)
    decreases |rs|
  {
    if rs == [] {
      assert rs + [f] == [f];
      SumRatesOne(f);
    } else {
      SumSnoc(rs[1..], f);
      assert (rs + [f])[1..] == rs[1..] + [f];
    }
  }

  lemma AdvanceValid(c: Cursor)
    requires c.Valid() && !c.Done()
    ensures c.Advance().Valid() && c.Advance().accum == c.NextPoint()
    ensures c.Advance().Spans(c.NextPoint().size as real)
  {
    hide SumRates;
    assert c.rates[..c.next + 1] == c.rates[..c.next] + [c.rates[c.next]];
    SumSnoc(c.rates[..c.next], c.rates[c.next]);
  }

  ghost function Rate(f: FeeFrac): real
    requires f.size > 0
  {
    f.fee as real / f.size as real
  }

  /** The line through a point with the slope of a feerate. */
  ghost function Line(p: FeeFrac, f: FeeFrac, x: real): real
    requires f.size > 0
  {
    p.fee as real + Rate(f) * (x - p.size as real)
  }

  lemma LineShift(g: FeeFrac, p: FeeFrac, f: FeeFrac, x: real)
    requires f.size > 0
    ensures Line(g.Plus(p), f, x) == g.fee as real + Line(p, f, x - g.size as real)
  {
    assert x - g.Plus(p).size as real == x - g.size as real - p.size as real;
  }

  lemma LineFromOrigin(f: FeeFrac, x: real)
    requires f.size > 0
    ensures f.fee as real * (x / f.size as real) == Line(EMPTY, f, x)
  {
    assert f.fee as real * (x / f.size as real) == Rate(f) * x;
  }

  lemma LineAtOrigin(f: FeeFrac)
    requires f.size > 0
    ensures Line(EMPTY, f, 0.0) == 0.0
  {
  }

  /** A diagram is a straight line until the next point. */
  lemma {:induction false} OnSegment(rs: seq<FeeFrac>, i: nat, x: real)
    requires PositiveRates(rs) && i < |rs|
    requires SumRates(rs[..i]).size as real <= x <= (SumRates(rs[..i]).size + rs[i].size) as real
    ensures Height(rs, x) == Line(SumRates(rs[..i]), rs[i], x)
    decreases |rs|
  {
    hide Line;
    if i == 0 {
      assert rs[..0] == [];
      LineFromOrigin(rs[0], x);
    } else {
      LaterSegment(rs, i, x);
    }
  }

  lemma {:induction false} LaterSegment(rs: seq<FeeFrac>, i: nat, x: real)
    requires PositiveRates(rs) && 0 < i < |rs|
    requires SumRates(rs[..i]).size as real <= x <= (SumRates(rs[..i]).size + rs[i].size) as real
    ensures Height(rs, x) == Line(SumRates(rs[..i]), rs[i], x)
    decreases |rs|, 0
  {
    hide Line;
    var f, rest := rs[0], rs[1..];
    var p := SumRates(rest[..i - 1]);
    assert SumRates(rs[..i]) == f.Plus(p) by {
      assert rs[..i][1..] == rest[..i - 1];
    }
    SumRatesSize(rest[..i - 1]);
    LineShift(f, p, rs[i], x);
    assert rs[i] == rest[i - 1];
    if x > f.size as real {
      OnSegment(rest, i - 1, x - f.size as real);
    } else {
      assert i == 1 && x == f.size as real;
      WholeSegment(f);
      LineAtOrigin(rs[1]);
    }
  }

  lemma CursorLine(c: Cursor, x: real)
    requires c.Valid() && c.Spans(x)
    ensures c.Slope().size > 0
    ensures Height(c.rates, x) == Line(c.accum, c.Slope(), x)
  {
    hide SumRates, Height, Line;
    if c.Done() {
      assert c.rates[..c.next] == c.rates;
      HeightBeyond(c.rates, x);
      Horizontal(c.accum, x);
    } else {
      OnSegment(c.rates, c.next, x);
    }
  }

  lemma Horizontal(p: FeeFrac, x: real)
    ensures Line(p, FeeFrac(0, 1), x) == p.fee as real
  {
    assert Rate(FeeFrac(0, 1)) == 0.0;
  }

  /** Of two lines, one that is not lower at either end is not lower in between. */
  lemma BetweenLines(p: FeeFrac, f: FeeFrac, q: FeeFrac, g: FeeFrac, m: real, n: real, x: real)
    requires f.size > 0 && g.size > 0 && m <= x <= n
    requires Line(p, f, m) >= Line(q, g, m) && Line(p, f, n) >= Line(q, g, n)
    ensures Line(p, f, x) >= Line(q, g, x)
  {
    hide Rate, Line, Rise;
    LinesApart(p, f, q, g, m, x);
    LinesApart(p, f, q, g, m, n);
    RiseBetween(Rate(f) - Rate(g), x - m, n - m);
  }

  lemma LinesApart(p: FeeFrac, f: FeeFrac, q: FeeFrac, g: FeeFrac, m: real, y: real)
    requires f.size > 0 && g.size > 0
    ensures Line(p, f, y) - Line(q, g, y) == Line(p, f, m) - Line(q, g, m) + Rise(Rate(f) - Rate(g), y - m)
  {
    hide Rate;
    var r, s := Rate(f), Rate(g);
    assert r * (y - p.size as real) == r * (m - p.size as real) + r * (y - m);
    assert s * (y - q.size as real) == s * (m - q.size as real) + s * (y - m);
  }

  ghost function Rise(slope: real, x: real): real {
    slope * x
  }

  lemma RiseBetween(d: real, x: real, y: real)
    requires 0.0 <= x <= y
    ensures Rise(d, x) >= 0.0 || Rise(d, x) >= Rise(d, y)
  {
    if d >= 0.0 {
      assert d * x >= 0.0;
    } else {
      assert d * (y - x) <= 0.0;
    }
  }

  /** Between two sizes where both diagrams are straight, it is enough to compare at the ends. */
  lemma AboveFurther(c: Cursor, d: Cursor, m: real, n: real)
    requires c.Valid() && d.Valid() && 0.0 <= m <= n && c.Spans(m) && c.Spans(n) && d.Spans(m) && d.Spans(n)
    requires AboveUpTo(c.rates, d.rates, m) && Height(c.rates, n) >= Height(d.rates, n)
    ensures AboveUpTo(c.rates, d.rates, n)
  {
    hide SumRates, Height, Line;
    forall x: real | 0.0 <= x <= n ensures Height(c.rates, x) >= Height(d.rates, x) {
      if x > m {
        CursorLine(c, m);
        CursorLine(c, n);
        CursorLine(c, x);
        CursorLine(d, m);
        CursorLine(d, n);
        CursorLine(d, x);
        BetweenLines(c.accum, c.Slope(), d.accum, d.Slope(), m, n, x);
      }
    }
  }

  // ----- the walk

  /** Whether a point is above the other diagram is told by comparing two feerates. */
  lemma PointCompared(u: Cursor, o: Cursor)
    requires u.Valid() && o.Valid() && !u.Done() && o.Spans(u.NextPoint().size as real)
    ensures var x, slope := u.NextPoint().size as real, u.NextPoint().Minus(o.accum);
            && (slope.Higher(o.Slope()) <==> Height(u.rates, x) > Height(o.rates, x))
            && (slope.Lower(o.Slope()) <==> Height(u.rates, x) < Height(o.rates, x))
  {
    hide SumRates, Height, Line;
    var p := u.NextPoint();
    AdvanceValid(u);
    CursorLine(u.Advance(), p.size as real);
    LineThrough(p, u.Advance().Slope());
    CursorLine(o, p.size as real);
    SlopeCompared(p, o.accum, o.Slope());
  }

  lemma LineThrough(p: FeeFrac, f: FeeFrac)
    requires f.size > 0
    ensures Line(p, f, p.size as real) == p.fee as real
  {
  }

  lemma SlopeCompared(p: FeeFrac, a: FeeFrac, f: FeeFrac)
    requires f.size > 0
    ensures p.Minus(a).Higher(f) <==> p.fee as real > Line(a, f, p.size as real)
    ensures p.Minus(a).Lower(f) <==> p.fee as real < Line(a, f, p.size as real)
  {
    var d, x, s := p.fee - a.fee, p.size - a.size, f.size as real;
    var r := Rate(f);
    assert r * s == f.fee as real;
    assert (d * f.size) as real == d as real * s && (f.fee * x) as real == r * s * x as real;
    ScaleSign(d as real - r * x as real, s);
    assert (d as real - r * x as real) * s == (d * f.size) as real - (f.fee * x) as real;
  }

  lemma ScaleSign(d: real, s: real)
    requires s > 0.0
    ensures (d > 0.0 <==> d * s > 0.0) && (d < 0.0 <==> d * s < 0.0)
  {
  }

  /** Both walks have reached `m`; a flag is set exactly if its diagram was higher somewhere. */
  ghost predicate Walked(u: Cursor, o: Cursor, betterU: bool, betterO: bool, m: real) {
    && u.Valid() && o.Valid() && 0.0 <= m && u.Spans(m) && o.Spans(m)
    && (if betterU then !Above(o.rates, u.rates) else AboveUpTo(o.rates, u.rates, m))
    && (if betterO then !Above(u.rates, o.rates) else AboveUpTo(u.rates, o.rates, m))
  }

  /** The cursor of the other diagram after the point is compared: also moved on if it has a point of the same size. */
  function Passing(u: Cursor, o: Cursor): Cursor
    requires !u.Done()
  {
    if !o.Done() && o.NextPoint().size == u.NextPoint().size then o.Advance() else o
  }

  lemma WalkStep(u: Cursor, o: Cursor, betterU: bool, betterO: bool, m: real)
    requires Walked(u, o, betterU, betterO, m) && !u.Done() && (o.Done() || u.NextPoint().size <= o.NextPoint().size)
    ensures var slope := u.NextPoint().Minus(o.accum);
            Walked(u.Advance(), Passing(u, o), betterU || slope.Higher(o.Slope()), betterO || slope.Lower(o.Slope()),
                   u.NextPoint().size as real)
  {
    hide SumRates, Height;
    var n := u.NextPoint().size as real;
    PointCompared(u, o);
    AdvanceValid(u);
    if !o.Done() {
      AdvanceValid(o);
    }
    if Height(o.rates, n) >= Height(u.rates, n) && !betterU {
      AboveFurther(o, u, m, n);
    }
    if Height(u.rates, n) >= Height(o.rates, n) && !betterO {
      AboveFurther(u, o, m, n);
    }
  }

  lemma WalkDone(u: Cursor, o: Cursor, betterU: bool, betterO: bool, m: real)
    requires Walked(u, o, betterU, betterO, m) && u.Done() && o.Done()
    ensures betterU == !Above(o.rates, u.rates) && betterO == !Above(u.rates, o.rates)
  {
    hide SumRates, Height;
    forall x: real | x > m ensures Height(u.rates, x) == Height(u.rates, m) && Height(o.rates, x) == Height(o.rates, m) {
      Flat(u, m, x);
      Flat(o, m, x);
    }
  }

  lemma Flat(c: Cursor, m: real, x: real)
    requires c.Valid() && c.Done() && c.Spans(m) && x > m
    ensures Height(c.rates, x) == Height(c.rates, m)
  {
    hide SumRates, Height;
    assert c.rates[..c.next] == c.rates;
    HeightBeyond(c.rates, m);
    HeightBeyond(c.rates, x);
  }

  lemma WalkStart(a: seq<FeeFrac>, b: seq<FeeFrac>)
    requires PositiveRates(a) && PositiveRates(b)
    ensures Walked(Cursor(a, 0, EMPTY), Cursor(b, 0, EMPTY), false, false, 0.0)
  {
    hide Height;
    HeightAtOrigin(a);
    HeightAtOrigin(b);
    assert a[..0] == [] && b[..0] == [];
    assert AboveUpTo(a, b, 0.0) && AboveUpTo(b, a, 0.0);
  }

  /** How two diagrams compare as a whole. */
  ghost function Order(a: seq<FeeFrac>, b: seq<FeeFrac>): Ordering
    requires PositiveRates(a) && PositiveRates(b)
  {
    if Above(a, b) then if Above(b, a) then Equivalent else Greater
    else if Above(b, a) then Less else Unordered
  }

  /** Compare two diagrams by walking along the points of both in order of size. */
  method CompareChunks(chunks0: seq<FeeFrac>, chunks1: seq<FeeFrac>) returns (r: Ordering)
    requires PositiveRates(chunks0) && PositiveRates(chunks1)
    ensures r == Order(chunks0, chunks1)
  {
    hide Walked, Above, PositiveRates;
    var c0, c1 := Cursor(chunks0, 0, EMPTY), Cursor(chunks1, 0, EMPTY);
    var better0, better1 := false, false;
    ghost var m := 0.0;
    WalkStart(chunks0, chunks1);
    while !(c0.Done() && c1.Done())
      invariant c0.rates == chunks0 && c1.rates == chunks1 && c0.next <= |chunks0| && c1.next <= |chunks1|
      invariant Walked(c0, c1, better0, better1, m) && !(better0 && better1)
      decreases |chunks0| - c0.next + |chunks1| - c1.next
    {
      var side1 := if c0.Done() || c1.Done() then c0.Done() else c0.NextPoint().size > c1.NextPoint().size;
      if !side1 {
        WalkStep(c0, c1, better0, better1, m);
        m := c0.NextPoint().size as real;
        var slope := c0.NextPoint().Minus(c1.accum);
        better0, better1 := better0 || slope.Higher(c1.Slope()), better1 || slope.Lower(c1.Slope());
        c0, c1 := c0.Advance(), Passing(c0, c1);
      } else {
        Mirrored(c0, c1, better0, better1, m);
        WalkStep(c1, c0, better1, better0, m);
        m := c1.NextPoint().size as real;
        var slope := c1.NextPoint().Minus(c0.accum);
        better1, better0 := better1 || slope.Higher(c0.Slope()), better0 || slope.Lower(c0.Slope());
        c1, c0 := c1.Advance(), Passing(c1, c0);
        Mirrored(c1, c0, better1, better0, m);
      }
      if better0 && better1 {
        BothBetter(c0, c1, m);
        return Unordered;
      }
    }
    WalkDone(c0, c1, better0, better1, m);
    r := if better0 == better1 then Equivalent else if better0 then Greater else Less;
  }

  lemma Mirrored(u: Cursor, o: Cursor, betterU: bool, betterO: bool, m: real)
    requires Walked(u, o, betterU, betterO, m)
    ensures Walked(o, u, betterO, betterU, m)
  {
  }

  lemma BothBetter(u: Cursor, o: Cursor, m: real)
    requires Walked(u, o, true, true, m)
    ensures PositiveRates(u.rates) && PositiveRates(o.rates) && !Above(o.rates, u.rates) && !Above(u.rates, o.rates)
  {
  }

  /** Comparing the chunks of two orders of one cluster tells which of them dominates the other. */
  lemma OrderIsDominance(g: Cluster, a: seq<nat>, b: seq<nat>)
    requires SizedSeq(g, a) && SizedSeq(g, b) && SeqRate(g, a) == SeqRate(g, b)
    ensures var ra, rb := ChunkRates(g, Chunks(g, a)), ChunkRates(g, Chunks(g, b));
            && PositiveRates(ra) && PositiveRates(rb)
            && (Order(ra, rb) in {Greater, Equivalent} <==> Dominates(g, a, b))
            && (Order(ra, rb) in {Less, Equivalent} <==> Dominates(g, b, a))
  {
    hide Dominates, Above;
    AboveIsDominance(g, a, b);
    AboveIsDominance(g, b, a);
  }

  lemma AboveIsDominance(g: Cluster, a: seq<nat>, b: seq<nat>)
    requires SizedSeq(g, a) && SizedSeq(g, b) && SeqRate(g, a) == SeqRate(g, b)
    ensures var ra, rb := ChunkRates(g, Chunks(g, a)), ChunkRates(g, Chunks(g, b));
            PositiveRates(ra) && PositiveRates(rb) && (Above(ra, rb) <==> Dominates(g, a, b))
  {
    hide Height, Chunks, ChunkRates, Dominates, PositiveRates;
    ChunkFacts(g, a);
    ChunkFacts(g, b);
    DominatesIffDiagram(g, a, b);
    var ra, rb := ChunkRates(g, Chunks(g, a)), ChunkRates(g, Chunks(g, b));
    assert forall x: real :: Diagram(g, a, x) == Height(ra, x) && Diagram(g, b, x) == Height(rb, x);
  }
}
