/** Numbers as sequences of 32-bit limbs, the least significant first. */
module Limbs {
  import opened Powers

  const BASE: nat := 0x1_0000_0000

  type Limb = x: nat | x < 0x1_0000_0000

  function Value(s: seq<Limb>): nat {
    if s == [] then 0 else s[0] + BASE * Value(s[1..])
  }

  /** The weight of a limb. */
  function Weight(i: nat): (w: nat)
    ensures w > 0
  {
    PowPositive(BASE, i);
    Pow(BASE, i)
  }

  lemma {:induction false} ValueConcat(a: seq<Limb>, b: seq<Limb>)
    ensures Value(a + b) == Value(a) + Weight(|a|) * Value(b)
  {
    if a == [] {
      assert a + b == b;
    } else {
      ValueConcat(a[1..], b);
      assert (a + b)[1..] == a[1..] + b;
      Associates(BASE, Weight(|a| - 1), Value(b));
      Spread(BASE, Value(a[1..]), Weight(|a| - 1) * Value(b));
    }
  }

  lemma ValueOne(x: Limb)
    ensures Value([x]) == x
  {
    assert [x][1..] == [];
  }

  lemma ValueMore(s: seq<Limb>, i: nat)
    requires i < |s|
    ensures Value(s[..i + 1]) == Value(s[..i]) + s[i] * Weight(i)
  {
    hide Value, Weight, Pow, Mod;
    ValueConcat(s[..i], [s[i]]);
    ValueOne(s[i]);
    assert s[..i + 1] == s[..i] + [s[i]];
  }

  lemma {:induction false} ValueBelow(s: seq<Limb>)
    ensures Value(s) < Weight(|s|)
  {
    if s != [] {
      ValueBelow(s[1..]);
      MulStrict(Value(s[1..]), Weight(|s| - 1), BASE);
    }
  }

  lemma ValueSplit(s: seq<Limb>, i: nat)
    requires i <= |s|
    ensures Value(s) == Value(s[..i]) + Weight(i) * Value(s[i..])
  {
    assert s == s[..i] + s[i..];
    ValueConcat(s[..i], s[i..]);
  }

  lemma {:induction false} ValueZero(s: seq<Limb>)
    ensures Value(s) == 0 <==> forall i | 0 <= i < |s| :: s[i] == 0
  {
    if s != [] {
      ValueZero(s[1..]);
      assert (forall i | 0 <= i < |s| :: s[i] == 0) <==> s[0] == 0 && (forall i | 0 <= i < |s[1..]| :: s[1..][i] == 0) by {
        if s[0] == 0 && (forall i | 0 <= i < |s[1..]| :: s[1..][i] == 0) {
          forall i | 0 <= i < |s| ensures s[i] == 0 {
            assert i > 0 ==> s[i] == s[1..][i - 1];
          }
        }
        if forall i | 0 <= i < |s| :: s[i] == 0 {
          forall i | 0 <= i < |s[1..]| ensures s[1..][i] == 0 {
            assert s[1..][i] == s[i + 1];
          }
        }
      }
    }
  }

  lemma NoLimbs()
    ensures Value([]) == 0 && Weight(0) == 1
  {
  }

  lemma WeightMore(i: nat)
    ensures Weight(i + 1) == BASE * Weight(i) && Weight(i) > 0
  {
    PowPositive(BASE, i);
  }

  // ----- addition

  /** One step of a carry chain. */
  lemma CarryStep(done: nat, carry: nat, w: nat, total: nat, n: nat, add: nat)
    requires done + carry * w == total && n == carry + add
    ensures done + n % BASE * w + n / BASE * (BASE * w) == total + add * w
  {
    assert n == n / BASE * BASE + n % BASE;
    Distributes(n / BASE * BASE, n % BASE, w);
    Distributes(carry, add, w);
    Associates(n / BASE, BASE, w);
  }

  /** Add in place, limb by limb with a carry; the last carry is dropped. */
  method Add(a: seq<Limb>, b: seq<Limb>) returns (pn: seq<Limb>)
    requires |a| == |b|
    ensures |pn| == |a| && Value(pn) == Mod(Value(a) + Value(b), Weight(|a|))
  {
    hide Value, Weight, Pow, Mod;
    NoLimbs();
    pn := a;
    var carry: nat := 0;
    var i := 0;
    assert a[..0] == [] && b[..0] == [];
    while i < |a|
      invariant 0 <= i <= |a| == |pn| && carry <= 1
      invariant pn[i..] == a[i..]
      invariant Value(pn[..i]) + carry * Weight(i) == Value(a[..i]) + Value(b[..i])
    {
      var x: nat, y: nat := pn[i], b[i];
      var n := carry + x + y;
      ValueMore(a, i);
      ValueMore(b, i);
      CarryStep(Value(pn[..i]), carry, Weight(i), Value(a[..i]) + Value(b[..i]), n, x + y);
      Distributes(x, y, Weight(i));
      WeightMore(i);
      ghost var old_ := pn;
      pn := pn[i := n % BASE];
      carry := n / BASE;
      assert pn[..i] == old_[..i];
      ValueMore(pn, i);
      i := i + 1;
    }
    assert pn[..i] == pn && a[..i] == a && b[..i] == b;
    ValueBelow(pn);
    ModIs(Value(a) + Value(b), Weight(|a|), carry, Value(pn));
  }

  // ----- negation and subtraction

  /** Flip every bit. */
  method Complement(a: seq<Limb>) returns (ret: seq<Limb>)
    ensures |ret| == |a| && Value(ret) == Weight(|a|) - 1 - Value(a)
  {
    hide Value, Weight, Pow, Mod;
    NoLimbs();
    ret := [];
    var i := 0;
    assert a[..0] == [];
    while i < |a|
      invariant 0 <= i <= |a| && |ret| == i
      invariant Value(ret) + Value(a[..i]) == Weight(i) - 1
    {
      var x: nat := a[i];
      ValueMore(a, i);
      ValueConcat(ret, [BASE - 1 - x]);
      ValueOne(BASE - 1 - x);
      WeightMore(i);
      Distributes(BASE - 1 - x, x, Weight(i));
      Distributes(BASE, 1, Weight(i));
      ret := ret + [BASE - 1 - x];
      i := i + 1;
    }
    assert a[..i] == a;
  }

  /** Add one, carrying while limbs wrap around to zero. */
  method Increment(a: seq<Limb>) returns (pn: seq<Limb>)
    ensures |pn| == |a| && Value(pn) == Mod(Value(a) + 1, Weight(|a|))
  {
    hide Value, Weight, Pow, Mod;
    NoLimbs();
    pn := a;
    var i := 0;
    assert a[..0] == [];
    while i < |pn|
      invariant 0 <= i <= |a| == |pn| && pn[i..] == a[i..]
      invariant Value(pn[..i]) == 0 && Value(a[..i]) + 1 == Weight(i)
    {
      var x: nat := pn[i];
      ghost var old_ := pn;
      pn := pn[i := (x + 1) % BASE];
      IncrementStep(a, old_, pn, i);
      if pn[i] != 0 {
        IncrementDone(a, pn, i);
        return;
      }
      i := i + 1;
    }
    assert pn[..i] == pn && a[..i] == a;
    ModIs(Value(a) + 1, Weight(|a|), 1, 0);
  }

  lemma IncrementStep(a: seq<Limb>, old_: seq<Limb>, pn: seq<Limb>, i: nat)
    requires i < |a| == |old_| == |pn| && old_[i] == a[i] && pn == old_[i := (old_[i] + 1) % BASE]
    requires Value(old_[..i]) == 0 && Value(a[..i]) + 1 == Weight(i)
    ensures pn[i] != 0 ==> pn[i] == a[i] + 1
    ensures pn[i] == 0 ==> Value(pn[..i + 1]) == 0 && Value(a[..i + 1]) + 1 == Weight(i + 1)
    ensures Value(pn[..i + 1]) == Value(a[..i + 1]) + 1 - (if pn[i] == 0 then Weight(i + 1) else 0)
  {
    hide Value, Weight, Pow, Mod;
    var x: nat := a[i];
    assert pn[..i] == old_[..i];
    ValueMore(pn, i);
    ValueMore(a, i);
    WeightMore(i);
    Distributes(x, 1, Weight(i));
  }

  lemma IncrementDone(a: seq<Limb>, pn: seq<Limb>, i: nat)
    requires i < |a| == |pn| && pn[i + 1..] == a[i + 1..] && Value(pn[..i + 1]) == Value(a[..i + 1]) + 1
    ensures Value(pn) == Mod(Value(a) + 1, Weight(|a|))
  {
    hide Value, Weight, Pow, Mod;
    ValueSplit(a, i + 1);
    ValueSplit(pn, i + 1);
    ValueBelow(pn);
    ModIs(Value(a) + 1, Weight(|a|), 0, Value(pn));
  }

  /** Two's complement negation. */
  method Negate(a: seq<Limb>) returns (ret: seq<Limb>)
    ensures |ret| == |a| && Value(ret) == Mod(Weight(|a|) - Value(a), Weight(|a|))
  {
    ret := Complement(a);
    ret := Increment(ret);
  }

  /** Subtract by adding the negation. */
  method Subtract(a: seq<Limb>, b: seq<Limb>) returns (r: seq<Limb>)
    requires |a| == |b|
    ensures |r| == |a| && Value(r) == Mod(Value(a) - Value(b), Weight(|a|))
  {
    hide Value, Weight, Pow, Mod;
    var minus := Negate(b);
    r := Add(a, minus);
    ModTwice(Value(a), Weight(|a|) - Value(b), Weight(|a|));
    ModSame(Value(a) - Value(b), Weight(|a|), 1);
  }

  // ----- comparison

  function Sign(a: int, b: int): int {
    if a < b then -1 else if a > b then 1 else 0
  }

  method CompareTo(a: seq<Limb>, b: seq<Limb>) returns (r: int)
    requires |a| == |b|
    ensures r == Sign(Value(a), Value(b))
  {
    hide Value, Weight, Pow, Mod;
    var i := |a|;
    while i > 0
      invariant 0 <= i <= |a| && a[i..] == b[i..]
    {
      i := i - 1;
      if a[i] < b[i] {
        HigherLimb(a, b, i);
        return -1;
      }
      if a[i] > b[i] {
        HigherLimb(b, a, i);
        return 1;
      }
      assert a[i..] == [a[i]] + a[i + 1..] && b[i..] == [b[i]] + b[i + 1..];
    }
    assert a == a[0..] && b == b[0..];
    r := 0;
  }

  /** The highest limb in which numbers differ decides. */
  lemma HigherLimb(a: seq<Limb>, b: seq<Limb>, i: nat)
    requires i < |a| == |b| && a[i] < b[i] && a[i + 1..] == b[i + 1..]
    ensures Value(a) < Value(b)
  {
    hide Value, Weight, Pow, Mod;
    ValueSplit(a, i + 1);
    ValueSplit(b, i + 1);
    ValueMore(a, i);
    ValueMore(b, i);
    ValueBelow(a[..i]);
    MulStrict(a[i], b[i], Weight(i));
  }
}
