/** Finite sets of transaction positions: the part of the source's `SetType` that is not already
    an operation on Dafny sets. */
module Positions {

  predicate IsFirst(s: set<nat>, m: nat) {
    m in s && forall x | x in s :: m <= x
  }

  predicate IsLast(s: set<nat>, m: nat) {
    m in s && forall x | x in s :: x <= m
  }

  /** The lowest position of a set; iterating a set takes its positions in this order. */
  function First(s: set<nat>): (m: nat)
    requires s != {}
    ensures IsFirst(s, m)
  {
    HasFirst(s);
    var m :| IsFirst(s, m);
    m
  }

  /** The highest position of a set. */
  function Last(s: set<nat>): (m: nat)
    requires s != {}
    ensures IsLast(s, m)
  {
    HasLast(s);
    var m :| IsLast(s, m);
    m
  }

  /** All positions below `n`. */
  function Fill(n: nat): (s: set<nat>)
    ensures forall i: nat :: i in s <==> i < n
    ensures |s| == n
  {
    if n == 0 then {} else Fill(n - 1) + {n - 1}
  }

  lemma {:induction false} HasFirst(s: set<nat>)
    requires s != {}
    ensures exists m :: IsFirst(s, m)
  {
    var y :| y in s;
    var rest := s - {y};
    assert forall x | x in s :: x == y || x in rest;
    if rest == {} {
      assert IsFirst(s, y);
    } else {
      HasFirst(rest);
      var m :| IsFirst(rest, m);
      assert IsFirst(s, if y < m then y else m);
    }
  }

  lemma {:induction false} HasLast(s: set<nat>)
    requires s != {}
    ensures exists m :: IsLast(s, m)
  {
    var y :| y in s;
    var rest := s - {y};
    assert forall x | x in s :: x == y || x in rest;
    if rest == {} {
      assert IsLast(s, y);
    } else {
      HasLast(rest);
      var m :| IsLast(rest, m);
      assert IsLast(s, if y > m then y else m);
    }
  }

  /** Everything in `a` comes before everything in `b`. */
  ghost predicate Before(a: set<nat>, b: set<nat>) {
    forall i, j | i in a && j in b :: i < j
  }

  lemma NextBefore(all: set<nat>, rest: set<nat>, i: nat)
    requires rest <= all && Before(all - rest, rest) && IsFirst(rest, i)
    ensures Before(all - (rest - {i}), rest - {i})
  {
    assert all - (rest - {i}) == all - rest + {i};
  }

  /** The positions occurring in a sequence. */
  function Elems(s: seq<nat>): set<nat> {
    set x | x in s
  }

  ghost predicate NoDup(s: seq<nat>) {
    forall i, j | 0 <= i < j < |s| :: s[i] != s[j]
  }

  lemma ElemsOne(x: nat)
    ensures Elems([x]) == {x}
  {
  }

  lemma ElemsConcat(a: seq<nat>, b: seq<nat>)
    ensures Elems(a + b) == Elems(a) + Elems(b)
  {
  }

  lemma NoDupConcat(a: seq<nat>, b: seq<nat>)
    ensures NoDup(a + b) <==> NoDup(a) && NoDup(b) && Elems(a) !! Elems(b)
  {
    var s := a + b;
    if NoDup(s) {
      assert forall i | 0 <= i < |a| :: a[i] == s[i];
      assert forall i | 0 <= i < |b| :: b[i] == s[|a| + i];
      forall i, j | 0 <= i < |a| && 0 <= j < |b| ensures a[i] != b[j] {
        assert s[i] != s[|a| + j];
      }
    }
    if NoDup(a) && NoDup(b) && Elems(a) !! Elems(b) {
      forall i, j | 0 <= i < j < |s| ensures s[i] != s[j] {
        if i < |a| && |a| <= j {
          assert s[i] in Elems(a) && s[j] in Elems(b);
        }
      }
    }
  }

  lemma {:induction false} NoDupSize(s: seq<nat>)
    ensures |Elems(s)| <= |s|
    ensures NoDup(s) ==> |Elems(s)| == |s|
  {
    if s != [] {
      var n := |s| - 1;
      NoDupSize(s[..n]);
      assert s == s[..n] + [s[n]];
      ElemsConcat(s[..n], [s[n]]);
      ElemsOne(s[n]);
      assert Elems(s) == Elems(s[..n]) + {s[n]};
    }
  }

  /** The subsequence of `s` whose positions are in `keep`. */
  function Filter(s: seq<nat>, keep: set<nat>): seq<nat> {
    if s == [] then []
    else if s[0] in keep then [s[0]] + Filter(s[1..], keep)
    else Filter(s[1..], keep)
  }

  lemma {:induction false} FilterConcat(a: seq<nat>, b: seq<nat>, keep: set<nat>)
    ensures Filter(a + b, keep) == Filter(a, keep) + Filter(b, keep)
  {
    if a == [] {
      assert a + b == b;
    } else {
      assert (a + b)[1..] == a[1..] + b;
      FilterConcat(a[1..], b, keep);
    }
  }

  lemma {:induction false} FilterElems(s: seq<nat>, keep: set<nat>)
    ensures Elems(Filter(s, keep)) == Elems(s) * keep
    ensures |Filter(s, keep)| <= |s|
    ensures NoDup(s) ==> NoDup(Filter(s, keep))
  {
    if s != [] {
      FilterElems(s[1..], keep);
      assert s == [s[0]] + s[1..];
      ElemsConcat([s[0]], s[1..]);
      NoDupConcat([s[0]], s[1..]);
      ElemsOne(s[0]);
      if s[0] in keep {
        ElemsConcat([s[0]], Filter(s[1..], keep));
        NoDupConcat([s[0]], Filter(s[1..], keep));
      }
    }
  }

  lemma {:induction false} FilterAll(s: seq<nat>, keep: set<nat>)
    requires Elems(s) <= keep
    ensures Filter(s, keep) == s
  {
    if s != [] {
      assert s[0] in Elems(s);
      assert Elems(s[1..]) <= Elems(s);
      FilterAll(s[1..], keep);
    }
  }

  lemma {:induction false} FilterNone(s: seq<nat>, keep: set<nat>)
    requires Elems(s) !! keep
    ensures Filter(s, keep) == []
  {
    if s != [] {
      assert s[0] in Elems(s);
      assert Elems(s[1..]) <= Elems(s);
      FilterNone(s[1..], keep);
    }
  }

  lemma {:induction false} FilterTwice(s: seq<nat>, a: set<nat>, b: set<nat>)
    ensures Filter(Filter(s, a), b) == Filter(s, a * b)
  {
    if s != [] {
      FilterTwice(s[1..], a, b);
      if s[0] in a {
        var t := Filter(s[1..], a);
        assert Filter(s, a) == [s[0]] + t;
        assert ([s[0]] + t)[1..] == t;
      }
    }
  }
}
