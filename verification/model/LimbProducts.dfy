/** Multiplication of numbers made of limbs, modulo the weight of one more limb than they have. */
module LimbProducts {
  import opened Powers
  import opened Limbs

  /** A product of limbs with two more added still fits into two limbs. */
  lemma FitsTwoLimbs(carry: nat, add: nat, x: nat, y: nat)
    requires carry < BASE && add < BASE && x < BASE && y < BASE
    ensures carry + add + x * y < BASE * BASE && (carry + add + x * y) / BASE < BASE
  {
    ProductIsNat(x, y);
    FitsTwo(BASE, carry, add, x, y);
    QuotientBelow(carry + add + x * y, BASE, BASE);
  }

  lemma FitsTwo(base: nat, carry: nat, add: nat, x: nat, y: nat)
    requires carry < base && add < base && x < base && y < base
    ensures carry + add + x * y < base * base
  {
    MulMonotone(x, base - 1, y);
    MulMonotone(y, base - 1, base - 1);
    Square(base);
  }

  lemma Square(base: nat)
    requires base > 0
    ensures (base - 1) * (base - 1) == base * base - 2 * base + 1
  {
  }

  lemma QuotientBelow(n: nat, a: nat, b: nat)
    requires a > 0 && n < a * b
    ensures n / a < b
  {
    var q := n / a;
    assert n == q * a + n % a;
    if q >= b {
      MulMonotone(b, q, a);
    }
  }

  /** The limbs below `i` are multiplied, with a carry to the next one. */
  ghost predicate Multiplying(a: seq<Limb>, pn: seq<Limb>, b: Limb, i: nat, carry: nat) {
    && i <= |a| == |pn| && carry < BASE && pn[i..] == a[i..]
    && Value(pn[..i]) + carry * Weight(i) == b * Value(a[..i])
  }

  /** Multiply in place by one limb. */
  method MultiplyBy(a: seq<Limb>, b: Limb) returns (pn: seq<Limb>)
    ensures |pn| == |a| && Value(pn) == Mod(b * Value(a), Weight(|a|))
  {
    hide Multiplying, Mod, Weight, Value;
    pn := a;
    var carry: nat := 0;
    var i := 0;
    StartMultiplying(a, b);
    while i < |a|
      invariant 0 <= i <= |a| == |pn|
      invariant Multiplying(a, pn, b, i, carry)
    {
      var n: nat := carry + b * pn[i];
      MultiplyStep(a, pn, b, i, carry, n);
      pn := pn[i := n % BASE];
      carry := n / BASE;
      i := i + 1;
    }
    MultipliedBy(a, pn, b, i, carry);
  }

  lemma StartMultiplying(a: seq<Limb>, b: Limb)
    ensures Multiplying(a, a, b, 0, 0)
  {
    hide Value, Weight;
    NoLimbs();
    assert a[..0] == [];
  }

  lemma MultiplyStep(a: seq<Limb>, pn: seq<Limb>, b: Limb, i: nat, carry: nat, n: nat)
    requires i < |a| == |pn| && Multiplying(a, pn, b, i, carry) && n == carry + b * pn[i]
    ensures Multiplying(a, pn[i := n % BASE], b, i + 1, n / BASE)
  {
    hide Value, Weight, Pow;
    var x: nat, r := pn[i], pn[i := n % BASE];
    assert x == a[i..][0];
    FitsTwoLimbs(carry, 0, b, x);
    ValueMore(a, i);
    RowStep(Value(pn[..i]), carry, Weight(i), 0, Value(a[..i]), 0, b, x, n);
    WeightMore(i);
    assert r[..i] == pn[..i] && r[i + 1..] == pn[i..][1..];
    ValueMore(r, i);
  }

  lemma MultipliedBy(a: seq<Limb>, pn: seq<Limb>, b: Limb, i: nat, carry: nat)
    requires i == |a| && Multiplying(a, pn, b, i, carry)
    ensures Value(pn) == Mod(b * Value(a), Weight(|a|))
  {
    hide Value, Weight, Pow, Mod;
    assert pn[..i] == pn && a[..i] == a;
    ValueBelow(pn);
    ModIs(b * Value(a), Weight(i), carry, Value(pn));
  }

  /** The first `i` limbs of a row are added, with a carry to the next one. */
  ghost predicate AddingRow(acc: seq<Limb>, r: seq<Limb>, x: Limb, b: seq<Limb>, j: nat, i: nat, carry: nat) {
    && i + j <= |b| == |acc| == |r| && carry < BASE && r[..j] == acc[..j] && r[j + i..] == acc[j + i..]
    && Value(r[j..][..i]) + carry * Weight(i) == Value(acc[j..][..i]) + x * Value(b[..i])
  }

  /** Add a multiple of `b`, shifted up by `j` limbs; what does not fit is dropped. */
  method AddRow(acc: seq<Limb>, x: Limb, b: seq<Limb>, j: nat) returns (r: seq<Limb>)
    requires |acc| == |b| && j <= |b|
    ensures |r| == |acc| && Value(r) == Mod(Value(acc) + x * Weight(j) * Value(b), Weight(|b|))
  {
    hide AddingRow, Mod, Weight, Value;
    r := acc;
    var carry: nat := 0;
    var i := 0;
    StartRow(acc, x, b, j);
    while i + j < |b|
      invariant 0 <= i && i + j <= |b| == |r|
      invariant AddingRow(acc, r, x, b, j, i, carry)
    {
      var n: nat := carry + r[i + j] + x * b[i];
      AddRowStep(acc, r, x, b, j, i, carry, n);
      r := r[i + j := n % BASE];
      carry := n / BASE;
      i := i + 1;
    }
    RowDone(acc, r, x, b, j, i, carry);
  }

  lemma StartRow(acc: seq<Limb>, x: Limb, b: seq<Limb>, j: nat)
    requires |acc| == |b| && j <= |b|
    ensures AddingRow(acc, acc, x, b, j, 0, 0)
  {
    hide Value, Weight;
    NoLimbs();
    assert acc[j..][..0] == [] && b[..0] == [];
  }

  lemma AddRowStep(acc: seq<Limb>, r: seq<Limb>, x: Limb, b: seq<Limb>, j: nat, i: nat, carry: nat, n: nat)
    requires i + j < |b| == |acc| == |r| && AddingRow(acc, r, x, b, j, i, carry) && n == carry + r[i + j] + x * b[i]
    ensures AddingRow(acc, r[i + j := n % BASE], x, b, j, i + 1, n / BASE)
  {
    hide Value, Weight, Pow;
    var u: nat, y: nat, s := r[i + j], b[i], r[i + j := n % BASE];
    FitsTwoLimbs(carry, u, x, y);
    assert u == r[j + i..][0] == acc[j + i..][0] && u == acc[j..][i];
    ValueMore(acc[j..], i);
    ValueMore(b, i);
    RowStep(Value(r[j..][..i]), carry, Weight(i), Value(acc[j..][..i]), Value(b[..i]), u, x, y, n);
    WeightMore(i);
    assert s[j..][..i] == r[j..][..i] && s[j + i + 1..] == r[j + i..][1..] && s[..j] == r[..j];
    ValueMore(s[j..], i);
  }

  lemma RowStep(done: nat, carry: nat, w: nat, va: nat, vb: nat, u: nat, x: nat, y: nat, n: nat)
    requires done + carry * w == va + x * vb && n == carry + u + x * y
    ensures done + n % BASE * w + n / BASE * (BASE * w) == va + u * w + x * (vb + y * w)
  {
    CarryStep(done, carry, w, va + x * vb, n, u + x * y);
    Distributes(u, x * y, w);
    Associates(x, y, w);
    Spread(x, vb, y * w);
  }

  lemma RowDone(acc: seq<Limb>, r: seq<Limb>, x: Limb, b: seq<Limb>, j: nat, k: nat, carry: nat)
    requires j + k == |b| && AddingRow(acc, r, x, b, j, k, carry)
    ensures Value(r) == Mod(Value(acc) + x * Weight(j) * Value(b), Weight(|b|))
  {
    hide Value, Weight, Pow, Mod, AddingRow;
    RowParts(acc, r, x, b, j, k, carry);
    WeightSum(j, k);
    ValueBelow(r);
    RowFinish(Weight(j), Weight(k), Value(acc[..j]), Value(r[j..]), Value(acc[j..]), x, Value(b[..k]), Value(b[k..]), carry,
              Value(r), Value(acc), Value(b), Weight(|b|));
  }

  lemma RowParts(acc: seq<Limb>, r: seq<Limb>, x: Limb, b: seq<Limb>, j: nat, k: nat, carry: nat)
    requires j + k == |b| && AddingRow(acc, r, x, b, j, k, carry)
    ensures |acc| == |r| == |b|
    ensures Value(r[j..]) + carry * Weight(k) == Value(acc[j..]) + x * Value(b[..k])
    ensures Value(r) == Value(acc[..j]) + Weight(j) * Value(r[j..])
    ensures Value(acc) == Value(acc[..j]) + Weight(j) * Value(acc[j..])
    ensures Value(b) == Value(b[..k]) + Weight(k) * Value(b[k..])
  {
    hide Value, Weight, Pow;
    assert r[j..][..k] == r[j..] && acc[j..][..k] == acc[j..];
    ValueSplit(r, j);
    ValueSplit(acc, j);
    ValueSplit(b, k);
  }

  lemma RowFinish(wj: nat, wk: nat, low: nat, r: nat, a: nat, x: nat, b0: nat, b1: nat, carry: nat,
                  vr: nat, va: nat, vb: nat, m: nat)
    requires r + carry * wk == a + x * b0 && vr == low + wj * r && va == low + wj * a && vb == b0 + wk * b1 && m == wj * wk
    requires vr < m
    ensures vr == Mod(va + x * wj * vb, m)
  {
    hide Mod;
    RowTotal(wj, wk, low, r, a, x, b0, b1, carry, vr, va, vb, m);
    ModIs(va + x * wj * vb, m, carry + x * b1, vr);
  }

  lemma WeightSum(i: nat, k: nat)
    ensures Weight(i + k) == Weight(i) * Weight(k)
  {
    PowAdd(BASE, i, k);
  }

  lemma RowTotal(wj: nat, wk: nat, low: nat, r: nat, a: nat, x: nat, b0: nat, b1: nat, carry: nat,
                 vr: nat, va: nat, vb: nat, m: nat)
    requires r + carry * wk == a + x * b0 && vr == low + wj * r && va == low + wj * a && vb == b0 + wk * b1 && m == wj * wk
    ensures va + x * wj * vb == (carry + x * b1) * m + vr
  {
    assert wj * (r + carry * wk) == wj * (a + x * b0);
    Spread(wj, r, carry * wk);
    Spread(wj, a, x * b0);
    Spread(x * wj, b0, wk * b1);
    Distributes(carry, x * b1, wj * wk);
    assert wj * (carry * wk) == carry * (wj * wk);
    assert wj * (x * b0) == x * wj * b0;
    assert x * wj * (wk * b1) == x * b1 * (wj * wk);
  }

  /** Schoolbook multiplication. */
  method Multiply(a: seq<Limb>, b: seq<Limb>) returns (r: seq<Limb>)
    requires |a| == |b|
    ensures |r| == |a| && Value(r) == Mod(Value(a) * Value(b), Weight(|a|))
  {
    hide Value, Weight, Pow, Mod;
    NoLimbs();
    r := seq(|a|, _ => 0);
    Zeros(r);
    var j := 0;
    assert a[..0] == [];
    ModIs(0, Weight(|a|), 0, 0);
    while j < |a|
      invariant 0 <= j <= |a| == |r|
      invariant Value(r) == Mod(Value(a[..j]) * Value(b), Weight(|a|))
    {
      var x: nat := a[j];
      ghost var v := Value(r);
      r := AddRow(r, a[j], b, j);
      ValueMore(a, j);
      Distributes(Value(a[..j]), x * Weight(j), Value(b));
      ModTwice(x * Weight(j) * Value(b), Value(a[..j]) * Value(b), Weight(|a|));
      j := j + 1;
    }
    assert a[..j] == a;
  }

  lemma {:induction false} Zeros(s: seq<Limb>)
    requires forall i | 0 <= i < |s| :: s[i] == 0
    ensures Value(s) == 0
  {
    ValueZero(s);
  }
}
