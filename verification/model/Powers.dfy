/** Powers and a few facts about products and remainders. */
module Powers {
  function Pow(b: nat, e: nat): nat {
    if e == 0 then 1 else b * Pow(b, e - 1)
  }

  lemma {:induction false} PowAdd(b: nat, m: nat, n: nat)
    ensures Pow(b, m + n) == Pow(b, m) * Pow(b, n)
  {
    if m > 0 {
      PowAdd(b, m - 1, n);
      Associates(b, Pow(b, m - 1), Pow(b, n));
      assert Pow(b, m + n) == b * Pow(b, m + n - 1);
    }
  }

  lemma Associates(a: nat, b: nat, c: nat)
    ensures a * (b * c) == a * b * c
  {
  }

  lemma {:induction false} PowPositive(b: nat, e: nat)
    requires b > 0
    ensures Pow(b, e) > 0
  {
    if e > 0 {
      PowPositive(b, e - 1);
      ProductPositive(b, Pow(b, e - 1));
    }
  }

  lemma ProductIsNat(a: nat, b: nat)
    ensures a * b >= 0
  {
  }

  lemma ProductPositive(a: nat, b: nat)
    requires a > 0 && b > 0
    ensures a * b > 0
  {
  }

  lemma {:induction false} PowGrows(b: nat, m: nat, n: nat)
    requires b > 0 && m <= n
    ensures Pow(b, m) <= Pow(b, n)
  {
    PowPositive(b, n - m);
    PowAdd(b, m, n - m);
    AtLeast(Pow(b, m), Pow(b, n - m));
  }

  lemma AtLeast(a: nat, b: nat)
    requires b > 0
    ensures a <= a * b
  {
  }

  /** The remainder, between zero and the modulus. */
  function Mod(a: int, m: nat): int
    requires m > 0
  {
    a % m
  }

  function Quotient(a: nat, m: nat): nat
    requires m > 0
  {
    a / m
  }

  lemma QuotientIs(a: nat, m: nat, q: nat, r: nat)
    requires m > 0 && a == q * m + r && r < m
    ensures Quotient(a, m) == q
  {
    DivisionIs(a, m, q, r);
  }

  lemma ModIs(a: int, m: nat, q: int, r: int)
    requires m > 0 && a == q * m + r && 0 <= r < m
    ensures Mod(a, m) == r
  {
    DivisionIs(a, m, q, r);
  }

  lemma ModSame(a: int, m: nat, q: int)
    requires m > 0
    ensures Mod(a + q * m, m) == Mod(a, m)
  {
    var k, r := a / m, a % m;
    assert a == k * m + r;
    Distributes(k, q, m);
    DivisionIs(a + q * m, m, k + q, r);
  }

  lemma ModTwice(a: int, b: int, m: nat)
    requires m > 0
    ensures Mod(a + Mod(b, m), m) == Mod(a + b, m)
  {
    var k, r := b / m, b % m;
    assert b == k * m + r;
    ModSame(a + r, m, k);
  }

  /** The quotient and the remainder are determined by what they should satisfy. */
  lemma DivisionIs(a: int, m: int, q: int, r: int)
    requires m > 0 && a == q * m + r && 0 <= r < m
    ensures a / m == q && a % m == r
  {
    var k := a / m - q;
    assert a == a / m * m + a % m;
    assert k * m == r - a % m by {
      Distributes(a / m, q, m);
    }
    SmallMultiple(k, m, r - a % m);
  }

  lemma Distributes(a: int, b: int, m: int)
    ensures (a - b) * m == a * m - b * m && (a + b) * m == a * m + b * m
  {
  }

  lemma Spread(a: int, b: int, c: int)
    ensures a * (b + c) == a * b + a * c
  {
  }

  lemma OutsideOne(k: int, m: int)
    requires m > 0
    ensures (k >= 1 ==> k * m >= m) && (k <= -1 ==> k * m <= -m)
  {
  }

  lemma SmallMultiple(k: int, m: int, d: int)
    requires m > 0 && k * m == d && -m < d < m
    ensures k == 0
  {
    OutsideOne(k, m);
  }

  lemma MulMonotone(a: nat, b: nat, c: nat)
    requires a <= b
    ensures a * c <= b * c
  {
  }

  lemma MulStrict(a: nat, b: nat, c: nat)
    requires a < b && c > 0
    ensures a * c < b * c && a * c + c <= b * c
  {
    Distributes(a, 1, c);
    MulMonotone(a + 1, b, c);
  }
}
