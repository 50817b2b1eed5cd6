/**
  A power of one number stays below a power of another of proportional exponent: the room a number needs when it is
  written to another base.
 */
module PowerBounds {
  import opened Powers

  lemma {:induction false} PowMul(b: nat, m: nat, n: nat)
    ensures Pow(b, m * n) == Pow(Pow(b, m), n)
  {
    if n > 0 {
      PowMul(b, m, n - 1);
      assert m * n == m + m * (n - 1) by {
        Distributes(n, 1, m);
      }
      PowAdd(b, m, m * (n - 1));
    }
  }

  lemma {:induction false} PowMonotone(a: nat, b: nat, n: nat)
    requires a <= b
    ensures Pow(a, n) <= Pow(b, n)
  {
    if n > 0 {
      PowMonotone(a, b, n - 1);
      MulMonotone(a, b, Pow(a, n - 1));
      MulMonotone(Pow(a, n - 1), Pow(b, n - 1), b);
    }
  }

  lemma {:induction false} PowStrict(a: nat, b: nat, n: nat)
    requires a < b && n > 0
    ensures Pow(a, n) < Pow(b, n)
  {
    if n == 1 {
      assert Pow(a, 0) == 1 && Pow(b, 0) == 1;
    } else {
      PowStrict(a, b, n - 1);
      MulMonotone(a, b, Pow(a, n - 1));
      MulStrict(Pow(a, n - 1), Pow(b, n - 1), b);
    }
  }

  lemma PowSwap(b: nat, m: nat, n: nat)
    ensures Pow(Pow(b, m), n) == Pow(Pow(b, n), m)
  {
    hide Pow;
    PowMul(b, m, n);
    PowMul(b, n, m);
    assert m * n == n * m;
  }

  lemma PowGrowsTwice(b: nat, q: nat, n: nat, e: nat, p: nat)
    requires b > 0 && q * n <= p * e
    ensures Pow(Pow(b, q), n) <= Pow(Pow(b, e), p)
  {
    hide Pow;
    PowMul(b, q, n);
    PowMul(b, e, p);
    assert e * p == p * e;
    PowGrows(b, q * n, e * p);
  }

  /** One comparison of powers gives all those of exponents in at most the same proportion. */
  lemma Proportional(a: nat, p: nat, b: nat, q: nat, n: nat, e: nat)
    requires b > 0 && p > 0 && Pow(a, p) <= Pow(b, q) && q * n <= p * e
    ensures Pow(a, n) <= Pow(b, e)
  {
    hide Pow;
    PowSwap(a, n, p);
    PowMonotone(Pow(a, p), Pow(b, q), n);
    PowGrowsTwice(b, q, n, e, p);
    if Pow(b, e) < Pow(a, n) {
      PowStrict(Pow(b, e), Pow(a, n), p);
    }
  }

  lemma PowOne(b: nat)
    ensures Pow(b, 1) == b
  {
    assert Pow(b, 0) == 1;
  }

  lemma Doubled(b: nat, e: nat, x: nat)
    requires Pow(b, e) == x
    ensures Pow(b, e + e) == x * x
  {
    PowAdd(b, e, e);
  }

  /** Eight bytes fit into eleven base-58 digits. */
  lemma EightBytes()
    ensures Pow(256, 8) <= Pow(58, 11)
  {
    hide Pow;
    PowOne(256);
    Doubled(256, 1, 256);
    Doubled(256, 2, 65536);
    Doubled(256, 4, 4294967296);
    PowOne(58);
    Doubled(58, 1, 58);
    Doubled(58, 2, 3364);
    Doubled(58, 4, 11316496);
    PowAdd(58, 8, 2);
    PowAdd(58, 10, 1);
  }

  /** Seventy-one base-58 digits fit into fifty-two bytes. */
  lemma SeventyOneDigits()
    ensures Pow(58, 71) <= Pow(256, 52)
  {
    hide Pow;
    PowOne(58);
    Doubled(58, 1, 58);
    Doubled(58, 2, 3364);
    Doubled(58, 4, 11316496);
    Doubled(58, 8, 128063081718016);
    Doubled(58, 16, 16400152899115243850138976256);
    Doubled(58, 32, 268965015114358137726910587140455987105619365599731777536);
    PowAdd(58, 64, 4);
    PowAdd(58, 68, 2);
    PowAdd(58, 70, 1);
    PowOne(256);
    Doubled(256, 1, 256);
    Doubled(256, 2, 65536);
    Doubled(256, 4, 4294967296);
    Doubled(256, 8, 18446744073709551616);
    Doubled(256, 16, 340282366920938463463374607431768211456);
    PowAdd(256, 32, 16);
    PowAdd(256, 48, 4);
  }

  /** The buffer of base-58 digits has room for every number of so many bytes. */
  lemma RoomForDigits(n: nat)
    ensures Pow(256, n) <= Pow(58, n * 138 / 100 + 1)
  {
    hide Pow;
    EightBytes();
    Proportional(256, 8, 58, 11, n, n * 138 / 100 + 1);
  }

  /** The buffer of bytes has room for every number of so many base-58 digits. */
  lemma RoomForBytes(n: nat)
    ensures Pow(58, n) <= Pow(256, n * 733 / 1000 + 1)
  {
    hide Pow;
    SeventyOneDigits();
    Proportional(58, 71, 256, 52, n, n * 733 / 1000 + 1);
  }
}
