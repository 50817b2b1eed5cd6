/** Clusters as values: the data a `DepGraph` holds, and what the rest of the file says about it. */
module Clusters {
  import opened FeeFracs
  import opened Positions

  datatype Entry = Entry(feerate: FeeFrac, ancestors: set<nat>, descendants: set<nat>)

  datatype Cluster = Cluster(entries: seq<Entry>, used: set<nat>) {

    function Rate(i: nat): FeeFrac {
      if i < |entries| then entries[i].feerate else EMPTY
    }

    function Anc(i: nat): set<nat> {
      if i < |entries| then entries[i].ancestors else {}
    }

    function Desc(i: nat): set<nat> {
      if i < |entries| then entries[i].descendants else {}
    }

    /** On the used positions, ancestry is a reflexive and transitive relation, and `descendants`
        is exactly its inverse. */
    ghost predicate Consistent() {
      && (forall i | i in used :: i < |entries|)
      && (forall i | i in used :: i in Anc(i) && Anc(i) <= used && Desc(i) <= used)
      && (forall i, j | i in used && j in Anc(i) :: Anc(j) <= Anc(i))
      && (forall i, j | i in used && j in used :: j in Anc(i) <==> i in Desc(j))
    }

    ghost predicate Acyclic() {
      forall i, j | i in used && j in used && i in Anc(j) && j in Anc(i) :: i == j
    }

    ghost predicate Sized() {
      forall i | i in used :: Rate(i).size > 0
    }

    /** What every algorithm in the file assumes of the cluster it works on. */
    ghost predicate Valid() {
      Consistent() && Acyclic() && Sized()
    }
  }

  /** Aggregate fee and size of a sequence of transactions. */
  function SeqRate(g: Cluster, s: seq<nat>): FeeFrac {
    if s == [] then EMPTY else g.Rate(s[0]).Plus(SeqRate(g, s[1..]))
  }

  /** Aggregate fee and size of a set of transactions. */
  ghost function SetRate(g: Cluster, s: set<nat>): FeeFrac {
    if s == {} then EMPTY else var x :| x in s; g.Rate(x).Plus(SetRate(g, s - {x}))
  }

  lemma {:induction false} SeqRateConcat(g: Cluster, a: seq<nat>, b: seq<nat>)
    ensures SeqRate(g, a + b) == SeqRate(g, a).Plus(SeqRate(g, b))
  {
    if a == [] {
      assert a + b == b;
    } else {
      assert (a + b)[1..] == a[1..] + b;
      SeqRateConcat(g, a[1..], b);
    }
  }

  lemma SeqRateOne(g: Cluster, x: nat)
    ensures SeqRate(g, [x]) == g.Rate(x)
  {
    var s := [x];
    assert SeqRate(g, s[1..]) == EMPTY;
  }

  lemma {:induction false} SetRateRemove(g: Cluster, s: set<nat>, x: nat)
    requires x in s
    ensures SetRate(g, s) == g.Rate(x).Plus(SetRate(g, s - {x}))
  {
    var y := SetRateUnfold(g, s);
    if x != y {
      var c := s - {x} - {y};
      assert c == s - {y} - {x};
      SetRateRemove(g, s - {y}, x);
      SetRateRemove(g, s - {x}, y);
      PlusLaws(g.Rate(y), g.Rate(x), SetRate(g, c));
    }
  }

  lemma SetRateUnfold(g: Cluster, s: set<nat>) returns (y: nat)
    requires s != {}
    ensures y in s && SetRate(g, s) == g.Rate(y).Plus(SetRate(g, s - {y}))
  {
    y :| y in s && SetRate(g, s) == g.Rate(y).Plus(SetRate(g, s - {y}));
  }

  lemma {:induction false} SetRateUnion(g: Cluster, a: set<nat>, b: set<nat>)
    requires a !! b
    ensures SetRate(g, a + b) == SetRate(g, a).Plus(SetRate(g, b))
  {
    if a == {} {
      assert a + b == b;
      PlusLaws(SetRate(g, b), EMPTY, EMPTY);
    } else {
      var x :| x in a;
      var u, c := a + b, a - {x};
      SetRateUnion(g, c, b);
      assert c + b == u - {x};
      calc {
        SetRate(g, u);
        { SetRateRemove(g, u, x); }
        g.Rate(x).Plus(SetRate(g, c + b));
        g.Rate(x).Plus(SetRate(g, c).Plus(SetRate(g, b)));
        { PlusLaws(g.Rate(x), SetRate(g, c), SetRate(g, b)); }
        g.Rate(x).Plus(SetRate(g, c)).Plus(SetRate(g, b));
        { SetRateRemove(g, a, x); }
        SetRate(g, a).Plus(SetRate(g, b));
      }
    }
  }

  lemma {:induction false} SeqRateIsSetRate(g: Cluster, s: seq<nat>)
    requires NoDup(s)
    ensures SeqRate(g, s) == SetRate(g, Elems(s))
  {
    if s != [] {
      assert s == [s[0]] + s[1..];
      NoDupConcat([s[0]], s[1..]);
      ElemsConcat([s[0]], s[1..]);
      ElemsOne(s[0]);
      SetRateRemove(g, Elems(s), s[0]);
      assert Elems(s) - {s[0]} == Elems(s[1..]);
      SeqRateIsSetRate(g, s[1..]);
    }
  }

  lemma {:induction false} SetRatePositive(g: Cluster, s: set<nat>)
    requires forall i | i in s :: g.Rate(i).size > 0
    ensures SetRate(g, s).size >= 0
    ensures SetRate(g, s).size == 0 <==> s == {}
  {
    if s != {} {
      var x :| x in s;
      SetRateRemove(g, s, x);
      SetRatePositive(g, s - {x});
    }
  }

  lemma {:induction false} SeqRatePositive(g: Cluster, s: seq<nat>)
    requires forall i | i in s :: g.Rate(i).size > 0
    ensures SeqRate(g, s).size >= 0
    ensures SeqRate(g, s).size == 0 <==> s == []
  {
    if s != [] {
      SeqRatePositive(g, s[1..]);
    }
  }

  /** A subset of `todo` that holds every ancestor in `todo` of its members: topologically valid
      to put before the rest of `todo`. */
  ghost predicate Closed(g: Cluster, todo: set<nat>, s: set<nat>) {
    && s <= todo
    && forall i, j | i in s && j in g.Anc(i) && j in todo :: j in s
  }

  /** Every transaction comes after all its ancestors. */
  ghost predicate Topological(g: Cluster, lin: seq<nat>) {
    && NoDup(lin)
    && forall i, j | 0 <= i < |lin| && 0 <= j < |lin| && lin[i] in g.Anc(lin[j]) :: i <= j
  }

  /** A linearization of the transactions in `todo`. */
  ghost predicate Linearizes(g: Cluster, todo: set<nat>, lin: seq<nat>) {
    Topological(g, lin) && Elems(lin) == todo
  }

  lemma PrefixClosed(g: Cluster, a: seq<nat>, b: seq<nat>)
    requires Topological(g, a + b)
    ensures Closed(g, Elems(a + b), Elems(a))
    ensures Topological(g, a) && Topological(g, b)
  {
    var s := a + b;
    assert forall k | 0 <= k < |a| :: a[k] == s[k];
    assert forall k | 0 <= k < |b| :: b[k] == s[|a| + k];
    forall i, j | i in Elems(a) && j in g.Anc(i) && j in Elems(s) ensures j in Elems(a) {
      var p :| 0 <= p < |a| && a[p] == i;
      var q :| 0 <= q < |s| && s[q] == j;
      assert s[q] in g.Anc(s[p]);
      assert a[q] == j;
    }
  }

  /** Putting a closed set first keeps an order topological. */
  lemma TopologicalConcat(g: Cluster, a: seq<nat>, b: seq<nat>)
    requires Topological(g, a) && Topological(g, b)
    requires Elems(a) !! Elems(b)
    requires Closed(g, Elems(a) + Elems(b), Elems(a))
    ensures Topological(g, a + b)
  {
    NoDupConcat(a, b);
    var s := a + b;
    forall i, j | |a| <= i < |s| && 0 <= j < |a| ensures s[i] !in g.Anc(s[j]) {
      assert s[i] in Elems(b) && s[j] in Elems(a);
    }
    forall i, j | 0 <= i < |s| && 0 <= j < |s| && s[i] in g.Anc(s[j]) ensures i <= j {
      if i < |a| && j < |a| {
        assert a[i] in g.Anc(a[j]);
      } else if |a| <= i && |a| <= j {
        assert b[i - |a|] in g.Anc(b[j - |a|]);
      }
    }
  }

  lemma {:induction false} FilterTopological(g: Cluster, s: seq<nat>, keep: set<nat>)
    requires Topological(g, s)
    ensures Topological(g, Filter(s, keep))
  {
    FilterElems(s, keep);
    if s != [] {
      var x, r := [s[0]], s[1..];
      assert s == x + r;
      PrefixClosed(g, x, r);
      NoDupConcat(x, r);
      FilterTopological(g, r, keep);
      FilterElems(r, keep);
      if s[0] in keep {
        ElemsConcat(x, r);
        assert Elems(x) == {s[0]};
        TopologicalConcat(g, x, Filter(r, keep));
      }
    }
  }
}
