/** The number of bits, and division bit by bit. */
module LimbDivision {
  import opened Powers
  import opened Limbs
  import opened LimbProducts
  import opened LimbShifts

  /** Whether a bit of a limb is set. */
  predicate HasBit(x: nat, n: nat) {
    PowPositive(2, n);
    x / Pow(2, n) % 2 == 1
  }

  /** When all higher bits are clear, a bit decides whether the number reaches its weight. */
  lemma HighestBit(x: nat, n: nat)
    requires x < Pow(2, n + 1)
    ensures HasBit(x, n) <==> x >= Pow(2, n)
  {
    PowPositive(2, n);
    var p := Pow(2, n);
    if x >= p {
      DivisionIs(x, p, 1, x - p);
    } else {
      DivisionIs(x, p, 0, x);
    }
  }

  /** The number of bits: the position of the highest one bit, plus one. */
  ghost predicate IsBits(v: nat, n: nat) {
    v < Pow(2, n) && (n > 0 ==> Pow(2, n - 1) <= v)
  }

  lemma ZeroBits(v: nat, n: nat)
    requires IsBits(v, n)
    ensures n == 0 <==> v == 0
  {
    if n > 0 {
      PowPositive(2, n - 1);
    }
  }

  method Bits(a: seq<Limb>) returns (n: nat)
    ensures IsBits(Value(a), n) && n <= 32 * |a|
  {
    hide Value, Weight, Pow, HasBit;
    PowZero(2);
    var pos: int := |a| - 1;
    while pos >= 0
      invariant -1 <= pos < |a|
      invariant forall m | pos < m < |a| :: a[m] == 0
    {
      if a[pos] != 0 {
        var nbits := LimbBits(a[pos]);
        TopLimb(a, pos, nbits);
        return 32 * pos + nbits;
      }
      pos := pos - 1;
    }
    ValueZero(a);
    n := 0;
  }

  method LimbBits(x: Limb) returns (n: nat)
    requires x != 0
    ensures 1 <= n <= 32 && IsBits(x, n)
  {
    hide Pow, HasBit;
    TwoTo32();
    var nbits := 31;
    while nbits > 0
      invariant 0 <= nbits <= 31 && x < Pow(2, nbits + 1)
    {
      HighestBit(x, nbits);
      if HasBit(x, nbits) {
        return nbits + 1;
      }
      nbits := nbits - 1;
    }
    PowZero(2);
    n := 1;
  }

  lemma TopLimb(a: seq<Limb>, pos: nat, n: nat)
    requires pos < |a| && (forall m | pos < m < |a| :: a[m] == 0) && 1 <= n <= 32 && IsBits(a[pos], n)
    ensures IsBits(Value(a), 32 * pos + n)
  {
    hide Value, Weight, Pow;
    ValueSplit(a, pos + 1);
    ValueMore(a, pos);
    ValueBelow(a[..pos]);
    ValueZero(a[pos + 1..]);
    WeightIsPower(pos);
    PowAdd(2, 32 * pos, n);
    PowAdd(2, 32 * pos, n - 1);
    var x: nat := a[pos];
    assert Value(a) == Value(a[..pos]) + x * Weight(pos);
    TopValue(Value(a[..pos]), x, Weight(pos), Pow(2, n), Pow(2, n - 1));
  }

  lemma TopValue(low: nat, x: nat, w: nat, above: nat, below: nat)
    requires low < w && below <= x < above
    ensures w * below <= low + x * w < w * above
  {
    MulMonotone(below, x, w);
    MulStrict(x, above, w);
  }

  // ----- setting bits of the quotient

  /** All bits below `n` are clear. */
  ghost predicate ClearBelow(q: seq<Limb>, n: nat) {
    forall m | 0 <= m < |q| :: ClearAt(q, n, m)
  }

  ghost predicate ClearAt(q: seq<Limb>, n: nat, m: nat)
    requires m < |q|
  {
    if 32 * m + 32 <= n then q[m] == 0
    else if 32 * m < n then ClearLow(q[m], n - 32 * m)
    else true
  }

  ghost predicate ClearLow(x: nat, n: nat) {
    PowPositive(2, n);
    x % Pow(2, n) == 0
  }

  lemma ClearLess(x: nat, n: nat)
    requires ClearLow(x, n + 1)
    ensures ClearLow(x, n) && ClearLow(x + Pow(2, n), n)
  {
    PowPositive(2, n);
    var p := Pow(2, n);
    var k := x / (2 * p);
    assert x == k * (2 * p);
    assert x == 2 * k * p;
    DivisionIs(x, p, 2 * k, 0);
    Distributes(2 * k, 1, p);
    DivisionIs(x + p, p, 2 * k + 1, 0);
  }

  lemma ClearZero(n: nat)
    ensures ClearLow(0, n)
  {
    PowPositive(2, n);
    DivisionIs(0, Pow(2, n), 0, 0);
  }

  lemma ClearBelowLess(q: seq<Limb>, n: nat)
    requires ClearBelow(q, n + 1)
    ensures ClearBelow(q, n)
  {
    hide ClearLow;
    forall m | 0 <= m < |q| ensures ClearAt(q, n, m) {
      assert ClearAt(q, n + 1, m);
      if 32 * m < n && 32 * m + 32 > n {
        if q[m] == 0 {
          ClearZero(n - 32 * m);
        } else {
          ClearLess(q[m], n - 32 * m);
        }
      }
    }
  }

  lemma ValueUpdate(q: seq<Limb>, k: nat, x: Limb)
    requires k < |q| && q[k] <= x
    ensures Value(q[k := x]) == Value(q) + (x - q[k]) * Weight(k)
  {
    hide Value, Weight;
    var r := q[k := x];
    ValueSplit(q, k + 1);
    ValueSplit(r, k + 1);
    ValueMore(q, k);
    ValueMore(r, k);
    assert r[..k] == q[..k] && r[k + 1..] == q[k + 1..];
    Distributes(x, q[k], Weight(k));
  }

  /** Set a bit of the quotient. */
  method SetBit(q: seq<Limb>, shift: nat) returns (r: seq<Limb>)
    requires shift / 32 < |q| && ClearBelow(q, shift + 1)
    ensures |r| == |q| && Value(r) == Value(q) + Pow(2, shift) && ClearBelow(r, shift)
  {
    hide Value, Weight, Pow, ClearBelow, Or;
    var k, s := shift / 32, shift % 32;
    SetLimb(q, shift, k, s);
    r := q[k := Or(q[k], Pow(2, s))];
    ValueUpdate(q, k, r[k]);
    WeightIsPower(k);
    PowAdd(2, s, 32 * k);
    StillClear(q, r, shift, k);
  }

  lemma SetLimb(q: seq<Limb>, shift: nat, k: nat, s: nat)
    requires k == shift / 32 < |q| && s == shift % 32 && ClearBelow(q, shift + 1)
    ensures Or(q[k], Pow(2, s)) == q[k] + Pow(2, s) < BASE && ClearLow(q[k] + Pow(2, s), s)
  {
    hide Or, Pow;
    assert ClearAt(q, shift + 1, k);
    var x: nat := q[k];
    if s + 1 == 32 {
      ClearZero(s + 1);
    }
    assert ClearLow(x, s + 1);
    ClearLess(x, s);
    PowPositive(2, s);
    TwicePower(s);
    OrIsSum(Pow(2, s), x, s + 1);
    TwoTo32();
    PowAdd(2, s + 1, 31 - s);
    PowPositive(2, s + 1);
    RoomBelow(x, Pow(2, s + 1), Pow(2, 31 - s));
  }

  lemma TwicePower(s: nat)
    ensures Pow(2, s + 1) == 2 * Pow(2, s)
  {
  }

  lemma StillClear(q: seq<Limb>, r: seq<Limb>, shift: nat, k: nat)
    requires k == shift / 32 < |q| && ClearBelow(q, shift + 1) && |r| == |q| && r == q[k := r[k]]
    requires ClearLow(r[k], shift % 32)
    ensures ClearBelow(r, shift)
  {
    hide ClearLow;
    ClearBelowLess(q, shift);
    forall m | 0 <= m < |r| ensures ClearAt(r, shift, m) {
      assert ClearAt(q, shift, m);
    }
  }

  // ----- division

  /** What is left of the numerator, the shifted divisor and the quotient so far. */
  ghost predicate Dividing(n: nat, d: nat, num: seq<Limb>, div: seq<Limb>, q: seq<Limb>, shift: int, width: nat) {
    && |num| == width && |div| == width && |q| == width && -1 <= shift < 32 * width
    && Value(num) + Value(q) * d == n
    && (shift >= 0 ==> Value(div) == d * Pow(2, shift))
    && Value(num) < d * Pow(2, shift + 1)
    && ClearBelow(q, shift + 1)
  }

  lemma StartDividing(a: seq<Limb>, b: seq<Limb>, div: seq<Limb>, q: seq<Limb>, nb: nat, db: nat)
    requires |a| == |b| == |div| == |q| && (forall i | 0 <= i < |q| :: q[i] == 0)
    requires IsBits(Value(a), nb) && IsBits(Value(b), db) && 0 < db <= nb <= 32 * |a|
    requires Value(div) == Mod(Value(b) * Pow(2, nb - db), Weight(|b|))
    ensures Dividing(Value(a), Value(b), a, div, q, nb - db, |a|)
  {
    hide Value, Weight, Pow, Mod, ClearLow;
    var d, s := Value(b), nb - db;
    PowAdd(2, db, s);
    PowAdd(2, db - 1, s + 1);
    PowPositive(2, s);
    PowPositive(2, s + 1);
    MulStrict(d, Pow(2, db), Pow(2, s));
    WeightIsPower(|b|);
    PowGrows(2, nb, 32 * |b|);
    ModIs(d * Pow(2, s), Weight(|b|), 0, d * Pow(2, s));
    MulMonotone(Pow(2, db - 1), d, Pow(2, s + 1));
    ValueZero(q);
    var n := s + 1;
    forall m | 0 <= m < |q| ensures ClearAt(q, n, m) {
      if n > 32 * m {
        ClearZero(n - 32 * m);
      }
    }
  }

  /** One bit of the quotient. */
  method DivideStep(ghost n: nat, ghost d: nat, num: seq<Limb>, div: seq<Limb>, q: seq<Limb>, shift: nat)
    returns (num': seq<Limb>, div': seq<Limb>, q': seq<Limb>)
    requires Dividing(n, d, num, div, q, shift, |q|)
    ensures Dividing(n, d, num', div', q', shift - 1, |q|)
  {
    hide Value, Weight, Pow, Mod, ClearBelow, Quotient;
    num', q' := num, q;
    var c := CompareTo(num, div);
    if c >= 0 {
      num' := Subtract(num, div);
      q' := SetBit(q, shift);
      ValueBelow(num);
      ModIs(Value(num) - Value(div), Weight(|num|), 0, Value(num) - Value(div));
      Distributes(Value(q), Pow(2, shift), d);
    } else {
      ClearBelowLess(q, shift);
    }
    div' := ShiftRight(div, 1);
    TwicePower(shift);
    Halved(d, Pow(2, shift));
    if shift > 0 {
      TwicePower(shift - 1);
      HalfDivisor(d, shift, Value(div), Value(div'));
    }
  }

  lemma Halved(d: nat, p: nat)
    ensures d * (2 * p) == 2 * (d * p)
  {
  }

  lemma HalfDivisor(d: nat, shift: nat, v: nat, h: nat)
    requires shift > 0 && v == d * Pow(2, shift) && Pow(2, 1) > 0 && h == Quotient(v, Pow(2, 1))
    ensures h == d * Pow(2, shift - 1)
  {
    var p := Pow(2, shift - 1);
    assert Pow(2, 1) == 2 * Pow(2, 0) == 2;
    Halved(d, p);
    QuotientIs(v, 2, d * p, 0);
  }

  /** Divide bit by bit, from the highest bit of the quotient down; division by zero is an error. */
  method Divide(a: seq<Limb>, b: seq<Limb>) returns (ok: bool, q: seq<Limb>)
    requires |a| == |b|
    ensures ok <==> Value(b) != 0
    ensures ok ==> |q| == |a| && Value(q) == Quotient(Value(a), Value(b))
  {
    hide Value, Weight, Pow, Mod, IsBits, Dividing, Quotient;
    q := seq(|a|, _ => 0);
    Zeros(q);
    var numBits := Bits(a);
    var divBits := Bits(b);
    ZeroBits(Value(b), divBits);
    ok := divBits != 0;
    if !ok {
      return;
    }
    if divBits > numBits {
      Smaller(Value(a), Value(b), numBits, divBits);
      return;
    }
    var num, shift: int := a, numBits - divBits;
    var div := ShiftLeft(b, shift);
    StartDividing(a, b, div, q, numBits, divBits);
    while shift >= 0
      invariant Dividing(Value(a), Value(b), num, div, q, shift, |a|) && |q| == |a| && -1 <= shift
      decreases shift
    {
      num, div, q := DivideStep(Value(a), Value(b), num, div, q, shift);
      shift := shift - 1;
      SameWidth(Value(a), Value(b), num, div, q, shift, |a|);
    }
    Divided(Value(a), Value(b), num, div, q, |a|);
  }

  lemma SameWidth(n: nat, d: nat, num: seq<Limb>, div: seq<Limb>, q: seq<Limb>, shift: int, width: nat)
    requires Dividing(n, d, num, div, q, shift, width)
    ensures |q| == width
  {
  }

  lemma Smaller(a: nat, b: nat, nb: nat, db: nat)
    requires IsBits(a, nb) && IsBits(b, db) && nb < db
    ensures b > 0 && Quotient(a, b) == 0
  {
    hide Pow;
    PowGrows(2, nb, db - 1);
    PowPositive(2, db - 1);
    QuotientIs(a, b, 0, a);
  }

  lemma Divided(n: nat, d: nat, num: seq<Limb>, div: seq<Limb>, q: seq<Limb>, width: nat)
    requires Dividing(n, d, num, div, q, -1, width) && d > 0
    ensures Value(q) == Quotient(n, d)
  {
    hide Value;
    assert Pow(2, 0) == 1;
    QuotientIs(n, d, Value(q), Value(num));
  }
}
