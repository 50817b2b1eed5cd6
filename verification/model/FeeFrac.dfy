/** Fee and size pairs, ordered by feerate (src/util/feefrac.h).
    Fees and sizes are unbounded integers here; the source uses 64 and 32 bits and
    leaves it to its callers to stay clear of overflow. */
module FeeFracs {

  datatype FeeFrac = FeeFrac(fee: int, size: int) {

    predicate IsEmpty() { size == 0 }

    function Plus(other: FeeFrac): FeeFrac {
      FeeFrac(fee + other.fee, size + other.size)
    }

    function Minus(other: FeeFrac): FeeFrac {
      FeeFrac(fee - other.fee, size - other.size)
    }

    /** The source's `>>`: strictly higher feerate, by cross-multiplication. */
    predicate Higher(other: FeeFrac) {
      fee * other.size > other.fee * size
    }

    /** The source's `<<`: strictly lower feerate. */
    predicate Lower(other: FeeFrac) {
      fee * other.size < other.fee * size
    }

    /** The source's `>`: higher feerate, ties going to the smaller size. */
    predicate Better(other: FeeFrac) {
      if fee * other.size == other.fee * size then size < other.size
      else fee * other.size > other.fee * size
    }
  }

  const EMPTY := FeeFrac(0, 0)

  lemma PlusLaws(a: FeeFrac, b: FeeFrac, c: FeeFrac)
    ensures a.Plus(b).Plus(c) == a.Plus(b.Plus(c))
    ensures a.Plus(b) == b.Plus(a)
    ensures a.Plus(b.Plus(c)) == b.Plus(a.Plus(c))
    ensures EMPTY.Plus(a) == a == a.Plus(EMPTY)
  {
  }

  lemma PlusMinus(a: FeeFrac, b: FeeFrac)
    ensures a.Plus(b).Minus(a) == b
  {
  }

  /** How much fee `f` has beyond what its size would earn at the feerate of `rate`, scaled by
      `rate.size`.  It is the height of the point `f` above the line of that slope. */
  function Excess(rate: FeeFrac, f: FeeFrac): int {
    f.fee * rate.size - rate.fee * f.size
  }

  lemma ExcessPlus(rate: FeeFrac, a: FeeFrac, b: FeeFrac)
    ensures Excess(rate, a.Plus(b)) == Excess(rate, a) + Excess(rate, b)
  {
    assert (a.fee + b.fee) * rate.size == a.fee * rate.size + b.fee * rate.size;
    assert rate.fee * (a.size + b.size) == rate.fee * a.size + rate.fee * b.size;
  }

  lemma ExcessSwap(a: FeeFrac, b: FeeFrac)
    ensures Excess(a, b) == -Excess(b, a)
    ensures a.Higher(b) <==> Excess(b, a) > 0
    ensures a.Lower(b) <==> Excess(b, a) < 0
  {
    assert a.fee * b.size == b.size * a.fee;
    assert b.fee * a.size == a.size * b.fee;
  }

  /** Feerates are transitively ordered: the excess of `a` over `low` is a positive combination of
      the excesses of `a` over `mid` and of `mid` over `low`. */
  lemma ExcessTransitive(low: FeeFrac, mid: FeeFrac, a: FeeFrac)
    requires low.size > 0 && mid.size > 0 && a.size > 0
    ensures Excess(low, mid) >= 0 && Excess(mid, a) >= 0 ==> Excess(low, a) >= 0
    ensures Excess(low, mid) > 0 && Excess(mid, a) >= 0 ==> Excess(low, a) > 0
    ensures Excess(low, mid) >= 0 && Excess(mid, a) > 0 ==> Excess(low, a) > 0
  {
    ExcessCombination(low, mid, a);
    var x, y, z := Excess(low, a), Excess(low, mid), Excess(mid, a);
    assert mid.size * x == a.size * y + low.size * z;
    MulSign(a.size, y);
    MulSign(low.size, z);
    MulSign(mid.size, x);
  }

  lemma ExcessCombination(low: FeeFrac, mid: FeeFrac, a: FeeFrac)
    ensures mid.size * Excess(low, a) == a.size * Excess(low, mid) + low.size * Excess(mid, a)
  {
    calc {
      a.size * Excess(low, mid) + low.size * Excess(mid, a);
      a.size * (mid.fee * low.size - low.fee * mid.size) + low.size * (a.fee * mid.size - mid.fee * a.size);
      mid.size * (a.fee * low.size - low.fee * a.size);
    }
  }

  lemma MulSign(p: int, x: int)
    requires p > 0
    ensures x > 0 <==> p * x > 0
    ensures x == 0 <==> p * x == 0
    ensures x < 0 <==> p * x < 0
  {
  }
}
