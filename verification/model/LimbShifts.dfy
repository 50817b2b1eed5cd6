/** Shifting numbers made of limbs. */
module LimbShifts {
  import opened Powers
  import opened Limbs
  import opened LimbProducts

  /** The bitwise disjunction. */
  function Or(a: nat, b: nat): nat {
    if a == 0 then b else if b == 0 then a
    else 2 * Or(a / 2, b / 2) + if a % 2 == 1 || b % 2 == 1 then 1 else 0
  }

  /** The disjunction of a number below a power of two and a multiple of it is their sum. */
  lemma {:induction false} OrIsSum(a: nat, b: nat, s: nat)
    requires a < Pow(2, s) && b % Pow(2, s) == 0
    ensures Or(a, b) == a + b && Or(b, a) == a + b
  {
    if a != 0 && b != 0 {
      assert s > 0;
      PowPositive(2, s - 1);
      HalfMultiple(b, Pow(2, s - 1));
      OrIsSum(a / 2, b / 2, s - 1);
    }
  }

  lemma HalfMultiple(b: nat, p: nat)
    requires p > 0 && b % (2 * p) == 0
    ensures b % 2 == 0 && (b / 2) % p == 0
  {
    var q := b / (2 * p);
    assert b == q * (2 * p);
    assert b == 2 * (q * p);
    DivisionIs(b / 2, p, q, 0);
  }

  lemma TwoTo32()
    ensures Pow(2, 32) == BASE
  {
    assert Pow(2, 1) == 2;
    PowAdd(2, 1, 1);
    PowAdd(2, 2, 2);
    PowAdd(2, 4, 4);
    PowAdd(2, 8, 8);
    PowAdd(2, 16, 16);
  }

  lemma WeightIsPower(i: nat)
    ensures Weight(i) == Pow(2, 32 * i)
  {
    if i > 0 {
      WeightIsPower(i - 1);
      TwoTo32();
      PowAdd(2, 32, 32 * (i - 1));
    }
  }

  /** What a shift by less than a limb leaves of a limb, and what it moves to the next one. */
  function Low(x: nat, s: nat): nat {
    x * Pow(2, s) % BASE
  }

  function High(x: nat, s: nat): nat
    requires s <= 32
  {
    PowPositive(2, 32 - s);
    if s == 0 then 0 else x / Pow(2, 32 - s)
  }

  lemma LowHigh(x: Limb, s: nat)
    requires s < 32
    ensures Low(x, s) < BASE && High(x, s) < Pow(2, s) <= BASE && Low(x, s) % Pow(2, s) == 0
    ensures Low(x, s) + BASE * High(x, s) == x * Pow(2, s) && (s == 0 ==> High(x, s) == 0)
  {
    hide Pow;
    PowPositive(2, s);
    TwoTo32();
    if s == 0 {
      assert Pow(2, 0) == 1 by {
        PowZero(2);
      }
      DivisionIs(x, BASE, 0, x);
      assert x * 1 == x;
    } else {
      PowPositive(2, 32 - s);
      PowAdd(2, s, 32 - s);
      var p, q := Pow(2, s), Pow(2, 32 - s);
      AtLeast(p, q);
      ShiftParts(x, p, q);
    }
  }

  lemma PowZero(b: nat)
    ensures Pow(b, 0) == 1
  {
  }

  lemma ShiftParts(x: nat, p: nat, q: nat)
    requires p > 0 && q > 0 && x < p * q
    ensures x / q < p && x * p % (p * q) % p == 0
    ensures x * p % (p * q) + p * q * (x / q) == x * p
  {
    var h, l := x / q, x % q;
    assert x == h * q + l;
    QuotientBelow(x, q, p);
    MulStrict(l, q, p);
    assert x * p == h * (p * q) + l * p by {
      Distributes(h * q, l, p);
      assert h * q * p == h * (p * q);
    }
    assert l * p < p * q;
    DivisionIs(x * p, p * q, h, l * p);
    DivisionIs(l * p, p, l, 0);
  }

  // ----- shifting left

  function Get(a: seq<Limb>, m: int): Limb {
    if 0 <= m < |a| then a[m] else 0
  }

  /** A limb of the shifted number. */
  function LeftLimb(a: seq<Limb>, k: nat, s: nat, m: int): nat
    requires s <= 32
  {
    High(Get(a, m - k - 1), s) + Low(Get(a, m - k), s)
  }

  ghost predicate IsLeftShift(a: seq<Limb>, k: nat, s: nat, r: seq<Limb>)
    requires s <= 32
  {
    |r| == |a| && forall m | 0 <= m < |r| :: r[m] == LeftLimb(a, k, s, m)
  }

  lemma NothingShifted(s: nat)
    requires s <= 32
    ensures Low(0, s) == 0 && High(0, s) == 0
  {
    PowPositive(2, 32 - s);
    DivisionIs(0, Pow(2, 32 - s), 0, 0);
  }

  /** The limbs below `n` of the shifted number, with what they move on. */
  lemma {:induction false} LeftValue(a: seq<Limb>, k: nat, s: nat, r: seq<Limb>, n: nat)
    requires s < 32 && IsLeftShift(a, k, s, r) && k <= n <= |a|
    ensures Value(r[..n]) + High(Get(a, n - k - 1), s) * Weight(n) == Pow(2, s) * (Weight(k) * Value(a[..n - k]))
  {
    hide Value, Weight, Pow, Low, High;
    NothingShifted(s);
    if n == k {
      LeftZeros(a, k, s, r);
      assert a[..0] == [];
      NoLimbs();
    } else {
      LeftValue(a, k, s, r, n - 1);
      var x: nat := a[n - 1 - k];
      ValueMore(r, n - 1);
      ValueMore(a, n - 1 - k);
      LowHigh(x, s);
      WeightMore(n - 1);
      WeightSum(k, n - 1 - k);
      assert r[n - 1] == LeftLimb(a, k, s, n - 1);
      LeftStep(Value(r[..n - 1]), High(Get(a, n - k - 2), s), Low(x, s), High(x, s), x, Weight(n - 1), Pow(2, s), Weight(k), Weight(n - 1 - k), Value(a[..n - 1 - k]));
    }
  }

  lemma LeftZeros(a: seq<Limb>, k: nat, s: nat, r: seq<Limb>)
    requires s <= 32 && IsLeftShift(a, k, s, r) && k <= |a|
    ensures Value(r[..k]) == 0
  {
    NothingShifted(s);
    forall m | 0 <= m < k ensures r[..k][m] == 0 {
      assert r[m] == LeftLimb(a, k, s, m);
    }
    ValueZero(r[..k]);
  }

  lemma LeftStep(done: nat, before: nat, low: nat, high: nat, x: nat, w: nat, p: nat, wk: nat, v: nat, sum: nat)
    requires done + before * w == p * (wk * sum) && low + BASE * high == x * p && w == wk * v
    ensures done + (before + low) * w + high * (BASE * w) == p * (wk * (sum + x * v))
  {
    Distributes(before, low, w);
    assert low * w + high * (BASE * w) == (low + BASE * high) * w by {
      Distributes(low, BASE * high, w);
      assert high * (BASE * w) == BASE * high * w;
    }
    assert x * p * w == p * (wk * (x * v));
    Spread(wk, sum, x * v);
    Spread(p, wk * sum, wk * (x * v));
  }

  /** Shift left, dropping what does not fit. */
  method ShiftLeft(a: seq<Limb>, shift: nat) returns (pn: seq<Limb>)
    ensures |pn| == |a| && Value(pn) == Mod(Value(a) * Pow(2, shift), Weight(|a|))
  {
    hide Value, Weight, Pow, Mod, Low, High;
    pn := seq(|a|, _ => 0);
    var k, s := shift / 32, shift % 32;
    NothingShifted(s);
    var i := 0;
    while i < |a|
      invariant 0 <= i <= |a| == |pn|
      invariant forall m | 0 <= m < |pn| :: pn[m] == LeftLimb(a[..i], k, s, m)
    {
      ghost var old_ := pn;
      LowHigh(a[i], s);
      PowPositive(2, s);
      if i + k + 1 < |a| && s != 0 {
        LeftEmpty(a, k, s, i, i + k + 1);
        pn := pn[i + k + 1 := Or(pn[i + k + 1], High(a[i], s))];
      }
      if i + k < |a| {
        LeftJoins(a, k, s, i);
        pn := pn[i + k := Or(pn[i + k], Low(a[i], s))];
      }
      forall m | 0 <= m < |pn| ensures pn[m] == LeftLimb(a[..i + 1], k, s, m) {
        LeftNext(a, k, s, i, m);
      }
      i := i + 1;
    }
    assert a[..i] == a;
    LeftDone(a, pn, k, s, shift);
  }

  lemma LeftNext(a: seq<Limb>, k: nat, s: nat, i: nat, m: int)
    requires s <= 32 && i < |a|
    ensures LeftLimb(a[..i + 1], k, s, m) == LeftLimb(a[..i], k, s, m) +
            (if m == i + k + 1 then High(a[i], s) else 0) + (if m == i + k then Low(a[i], s) else 0)
  {
    hide Low, High;
    NothingShifted(s);
  }

  lemma LeftEmpty(a: seq<Limb>, k: nat, s: nat, i: nat, m: int)
    requires s <= 32 && i < |a| && m > i + k
    ensures LeftLimb(a[..i], k, s, m) == 0
  {
    hide Low, High;
    NothingShifted(s);
  }

  lemma LeftJoins(a: seq<Limb>, k: nat, s: nat, i: nat)
    requires s < 32 && i < |a|
    ensures var h := LeftLimb(a[..i], k, s, i + k);
            Or(h, Low(a[i], s)) == h + Low(a[i], s) < BASE
  {
    hide Low, High, Or, Pow;
    NothingShifted(s);
    PowPositive(2, s);
    LowHigh(a[i], s);
    LowHigh(Get(a[..i], i - 1), s);
    var h := LeftLimb(a[..i], k, s, i + k);
    assert h == High(Get(a[..i], i - 1), s);
    OrIsSum(h, Low(a[i], s), s);
    TwoTo32();
    PowAdd(2, s, 32 - s);
    RoomBelow(Low(a[i], s), Pow(2, s), Pow(2, 32 - s));
  }

  /** A multiple below another one leaves room. */
  lemma RoomBelow(a: nat, p: nat, q: nat)
    requires p > 0 && a % p == 0 && a < p * q
    ensures a + p <= p * q
  {
    var k := a / p;
    assert a == k * p;
    QuotientBelow(a, p, q);
    MulStrict(k, q, p);
  }

  lemma LeftDone(a: seq<Limb>, r: seq<Limb>, k: nat, s: nat, shift: nat)
    requires s < 32 && shift == 32 * k + s && IsLeftShift(a, k, s, r)
    ensures Value(r) == Mod(Value(a) * Pow(2, shift), Weight(|a|))
  {
    hide Value, Weight, Pow, Mod, Low, High;
    PowAdd(2, 32 * k, s);
    WeightIsPower(k);
    ValueBelow(r);
    var n := |a|;
    if k >= n {
      WeightSum(n, k - n);
      AllShiftedOut(a, r, k, s);
      ShiftedOut(Value(a), Pow(2, s), Weight(n), Weight(k - n), Pow(2, shift));
    } else {
      LeftValue(a, k, s, r, n);
      assert r[..n] == r;
      ValueSplit(a, n - k);
      WeightSum(k, n - k);
      LeftTotal(Value(r), High(Get(a, n - k - 1), s), Weight(n), Pow(2, s), Weight(k), Weight(n - k),
                Value(a[..n - k]), Value(a[n - k..]), Value(a), Pow(2, shift));
    }
  }

  lemma AllShiftedOut(a: seq<Limb>, r: seq<Limb>, k: nat, s: nat)
    requires s < 32 && IsLeftShift(a, k, s, r) && k >= |a|
    ensures Value(r) == 0
  {
    NothingShifted(s);
    forall m | 0 <= m < |r| ensures r[m] == 0 {
      assert r[m] == LeftLimb(a, k, s, m);
    }
    ValueZero(r);
  }

  lemma ShiftedOut(v: nat, p: nat, m: nat, w: nat, power: nat)
    requires power == m * w * p && m > 0
    ensures Mod(v * power, m) == 0
  {
    assert v * power == v * w * p * m;
    ModIs(v * power, m, v * w * p, 0);
  }

  lemma LeftTotal(r: nat, high: nat, m: nat, p: nat, wk: nat, wj: nat, low: nat, rest: nat, v: nat, power: nat)
    requires r + high * m == p * (wk * low) && m == wk * wj && v == low + wj * rest && power == wk * p && r < m
    ensures r == Mod(v * power, m)
  {
    hide Mod;
    Distributes(low, wj * rest, power);
    assert low * power == p * (wk * low);
    assert wj * rest * power == p * rest * m;
    Distributes(high, p * rest, m);
    ModIs(v * power, m, high + p * rest, r);
  }

  // ----- shifting right

  /** What a shift to the right leaves of a limb, and what it moves to the one before. */
  function Kept(x: nat, s: nat): nat {
    PowPositive(2, s);
    x / Pow(2, s)
  }

  function Moved(x: nat, s: nat): nat
    requires s <= 32
  {
    if s == 0 then 0 else x * Pow(2, 32 - s) % BASE
  }

  /** The rest of a limb that a shift to the right drops. */
  ghost function Rest(x: nat, s: nat): nat {
    PowPositive(2, s);
    x % Pow(2, s)
  }

  /** A limb is what is kept and a rest, which is moved to the top of the limb before. */
  lemma KeptMoved(x: Limb, s: nat)
    requires s < 32
    ensures Kept(x, s) < Pow(2, 32 - s) && Moved(x, s) < BASE && Pow(2, 32 - s) > 0 && Moved(x, s) % Pow(2, 32 - s) == 0
    ensures Rest(x, s) < Pow(2, s) && x == Kept(x, s) * Pow(2, s) + Rest(x, s) && Pow(2, s) * Moved(x, s) == Rest(x, s) * BASE
    ensures s == 0 ==> Moved(x, s) == 0
  {
    hide Pow;
    TwoTo32();
    PowPositive(2, s);
    PowPositive(2, 32 - s);
    PowAdd(2, s, 32 - s);
    var p, q := Pow(2, s), Pow(2, 32 - s);
    assert x == x / p * p + x % p;
    QuotientBelow(x, p, q);
    if s == 0 {
      PowZero(2);
      DivisionIs(x, 1, x, 0);
      DivisionIs(0, q, 0, 0);
    } else {
      MovedParts(x, p, q);
    }
  }

  lemma MovedParts(x: nat, p: nat, q: nat)
    requires p > 0 && q > 0
    ensures x * q % (p * q) == x % p * q && x % p * q % q == 0 && x * q % (p * q) < p * q
    ensures p * (x * q % (p * q)) == x % p * (p * q)
  {
    var h, l := x / p, x % p;
    assert x == h * p + l;
    MulStrict(l, p, q);
    assert x * q == h * (p * q) + l * q by {
      Distributes(h * p, l, q);
      assert h * p * q == h * (p * q);
    }
    DivisionIs(x * q, p * q, h, l * q);
    DivisionIs(l * q, q, l, 0);
    assert p * (l * q) == l * (p * q);
  }

  function RightLimb(a: seq<Limb>, k: nat, s: nat, m: int): nat
    requires s <= 32
  {
    Kept(Get(a, m + k), s) + Moved(Get(a, m + k + 1), s)
  }

  ghost predicate IsRightShift(a: seq<Limb>, k: nat, s: nat, r: seq<Limb>)
    requires s <= 32
  {
    |r| == |a| && forall m | 0 <= m < |r| :: r[m] == RightLimb(a, k, s, m)
  }

  lemma NothingMoved(s: nat)
    requires s <= 32
    ensures Kept(0, s) == 0 && Moved(0, s) == 0
  {
    PowPositive(2, s);
    DivisionIs(0, Pow(2, s), 0, 0);
  }

  /** The limbs of the shifted number from `m` on. */
  lemma {:induction false} RightValue(a: seq<Limb>, k: nat, s: nat, r: seq<Limb>, m: nat)
    requires s < 32 && IsRightShift(a, k, s, r) && m + k <= |a|
    ensures Pow(2, s) * Value(r[m..]) + Rest(Get(a, m + k), s) == Value(a[m + k..])
    decreases |a| - m
  {
    hide Pow, Kept, Moved, Rest;
    NothingMoved(s);
    KeptMoved(0, s);
    if m + k == |a| {
      RightZeros(a, k, s, r, m);
      assert a[m + k..] == [];
    } else {
      RightValue(a, k, s, r, m + 1);
      var x: nat, y: nat := Get(a, m + k), Get(a, m + k + 1);
      assert r[m..][1..] == r[m + 1..] && a[m + k..][1..] == a[m + k + 1..];
      assert r[m] == RightLimb(a, k, s, m);
      KeptMoved(x, s);
      KeptMoved(y, s);
      RightStep(Pow(2, s), Kept(x, s), Moved(y, s), Rest(x, s), Rest(y, s), Value(r[m + 1..]), Value(a[m + k + 1..]), x);
    }
  }

  lemma RightZeros(a: seq<Limb>, k: nat, s: nat, r: seq<Limb>, m: nat)
    requires s < 32 && IsRightShift(a, k, s, r) && m + k >= |a| && m <= |a|
    ensures Value(r[m..]) == 0
  {
    NothingMoved(s);
    forall i | 0 <= i < |r[m..]| ensures r[m..][i] == 0 {
      assert r[m + i] == RightLimb(a, k, s, m + i);
    }
    ValueZero(r[m..]);
  }

  lemma RightStep(p: nat, kept: nat, moved: nat, rest: nat, next: nat, r: nat, v: nat, x: nat)
    requires p * r + next == v && x == kept * p + rest && p * moved == next * BASE
    ensures p * (kept + moved + BASE * r) + rest == x + BASE * v
  {
    Spread(p, kept + moved, BASE * r);
    Spread(p, kept, moved);
    assert p * (BASE * r) == BASE * (p * r);
    Spread(BASE, p * r, next);
  }

  /** Shift right, dropping what falls off. */
  method ShiftRight(a: seq<Limb>, shift: nat) returns (pn: seq<Limb>)
    ensures |pn| == |a| && Pow(2, shift) > 0 && Value(pn) == Quotient(Value(a), Pow(2, shift))
  {
    hide Value, Weight, Pow, Kept, Moved, Quotient, Rest;
    PowPositive(2, shift);
    pn := seq(|a|, _ => 0);
    var k, s := shift / 32, shift % 32;
    NothingMoved(s);
    var i := 0;
    while i < |a|
      invariant 0 <= i <= |a| == |pn|
      invariant forall m | 0 <= m < |pn| :: pn[m] == RightLimb(a[..i], k, s, m)
    {
      KeptBound(a[i], s);
      if i - k - 1 >= 0 && s != 0 {
        RightJoins(a, k, s, i);
        pn := pn[i - k - 1 := Or(pn[i - k - 1], Moved(a[i], s))];
      }
      if i - k >= 0 {
        RightEmpty(a, k, s, i);
        pn := pn[i - k := Or(pn[i - k], Kept(a[i], s))];
      }
      forall m | 0 <= m < |pn| ensures pn[m] == RightLimb(a[..i + 1], k, s, m) {
        RightNext(a, k, s, i, m);
      }
      i := i + 1;
    }
    assert a[..i] == a;
    RightDone(a, pn, k, s, shift);
  }

  lemma KeptBound(x: Limb, s: nat)
    requires s < 32
    ensures Kept(x, s) < BASE && Moved(x, s) < BASE && (s == 0 ==> Moved(x, s) == 0)
  {
    hide Kept, Moved, Pow;
    KeptMoved(x, s);
    TwoTo32();
    PowGrows(2, 32 - s, 32);
  }

  lemma RightNext(a: seq<Limb>, k: nat, s: nat, i: nat, m: int)
    requires s <= 32 && i < |a|
    ensures RightLimb(a[..i + 1], k, s, m) == RightLimb(a[..i], k, s, m) +
            (if m == i - k then Kept(a[i], s) else 0) + (if m == i - k - 1 then Moved(a[i], s) else 0)
  {
    hide Kept, Moved;
    NothingMoved(s);
  }

  lemma RightEmpty(a: seq<Limb>, k: nat, s: nat, i: nat)
    requires s <= 32 && i < |a|
    ensures RightLimb(a[..i], k, s, i - k) == 0
  {
    hide Kept, Moved;
    NothingMoved(s);
  }

  lemma RightJoins(a: seq<Limb>, k: nat, s: nat, i: nat)
    requires s < 32 && i < |a| && i - k - 1 >= 0
    ensures var l := RightLimb(a[..i], k, s, i - k - 1);
            Or(l, Moved(a[i], s)) == l + Moved(a[i], s) < BASE
  {
    hide Kept, Moved, Or, Pow;
    NothingMoved(s);
    KeptMoved(a[i], s);
    KeptMoved(a[i - 1], s);
    var l := RightLimb(a[..i], k, s, i - k - 1);
    assert l == Kept(a[i - 1], s);
    OrIsSum(l, Moved(a[i], s), 32 - s);
    TwoTo32();
    PowAdd(2, 32 - s, s);
    RoomBelow(Moved(a[i], s), Pow(2, 32 - s), Pow(2, s));
  }

  lemma RightDone(a: seq<Limb>, r: seq<Limb>, k: nat, s: nat, shift: nat)
    requires s < 32 && shift == 32 * k + s && IsRightShift(a, k, s, r)
    ensures Pow(2, shift) > 0 && Value(r) == Quotient(Value(a), Pow(2, shift))
  {
    hide Value, Weight, Pow, Rest, Quotient, Kept, Moved;
    PowPositive(2, shift);
    PowPositive(2, s);
    PowAdd(2, 32 * k, s);
    WeightIsPower(k);
    var n := |a|;
    if k >= n {
      RightZeros(a, k, s, r, 0);
      assert r[0..] == r;
      ValueBelow(a);
      WeightSum(n, k - n);
      AtLeast(Weight(n), Weight(k - n));
      AtLeast(Weight(k), Pow(2, s));
      QuotientIs(Value(a), Pow(2, shift), 0, Value(a));
    } else {
      RightValue(a, k, s, r, 0);
      assert r[0..] == r;
      ValueSplit(a, k);
      ValueBelow(a[..k]);
      KeptMoved(Get(a, k), s);
      RightTotal(Value(a), Value(a[..k]), Weight(k), Pow(2, s), Value(r), Rest(Get(a, k), s), Pow(2, shift));
    }
  }

  lemma RightTotal(v: nat, low: nat, w: nat, p: nat, r: nat, rest: nat, power: nat)
    requires v == low + w * (p * r + rest) && low < w && rest < p && power == w * p
    ensures Quotient(v, power) == r
  {
    Spread(w, p * r, rest);
    assert w * (p * r) == r * power;
    MulStrict(rest, p, w);
    assert rest * w == w * rest && p * w == power;
    QuotientIs(v, power, r, low + w * rest);
  }
}
