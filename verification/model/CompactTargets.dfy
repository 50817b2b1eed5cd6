/** The compact encoding of 256-bit targets, and the work that a target stands for. */
module CompactTargets {
  import opened Powers
  import opened Limbs
  import opened LimbProducts
  import opened LimbShifts
  import opened LimbDivision

  const WIDTH: nat := 8

  /** 2 to the 256. */
  function Modulus(): (m: nat)
    ensures m > 0
  {
    Weight(WIDTH)
  }

  lemma ModulusIsPower()
    ensures Modulus() == Pow(2, 256)
  {
    WeightIsPower(WIDTH);
  }

  const MANTISSA: nat := 0x800000
  const SIZE_UNIT: nat := 0x1000000

  function TwoTo(n: nat): (p: nat)
    ensures p > 0
  {
    PowPositive(2, n);
    Pow(2, n)
  }

  // ----- what a compact number stands for

  function SizeOf(compact: nat): nat {
    compact / SIZE_UNIT
  }

  predicate SignOf(compact: nat) {
    compact / MANTISSA % 2 == 1
  }

  /** A mantissa with a number of bytes: the represented magnitude, before any reduction. */
  function Decoded(mantissa: nat, size: nat): nat {
    if size <= 3 then Quotient(mantissa, TwoTo(8 * (3 - size))) else mantissa * TwoTo(8 * (size - 3))
  }

  function Magnitude(compact: nat): nat {
    Decoded(compact % MANTISSA, SizeOf(compact))
  }

  /** A small number as limbs. */
  function FromWord(word: Limb): (a: seq<Limb>)
    ensures |a| == WIDTH && Value(a) == word
  {
    var a := [word, 0, 0, 0, 0, 0, 0, 0];
    SmallValue(a, word);
    a
  }

  lemma SmallValue(a: seq<Limb>, word: Limb)
    requires |a| == WIDTH && a[0] == word && forall i | 1 <= i < WIDTH :: a[i] == 0
    ensures Value(a) == word
  {
    ValueZero(a[1..]);
  }

  /** Decode a compact number; it overflows exactly if its magnitude does not fit. */
  method SetCompact(compact: nat) returns (v: seq<Limb>, negative: bool, overflow: bool)
    requires compact < BASE
    ensures |v| == WIDTH && Value(v) == Mod(Magnitude(compact), Modulus())
    ensures negative <==> Magnitude(compact) != 0 && SignOf(compact)
    ensures overflow <==> Magnitude(compact) >= Modulus()
  {
    hide Value, Pow, Mod, Quotient, Weight, TwoTo;
    var size := compact / SIZE_UNIT;
    var word := compact % MANTISSA;
    if size <= 3 {
      SmallMagnitude(word, size);
      word := Quotient(word, TwoTo(8 * (3 - size)));
      v := FromWord(word);
    } else {
      v := FromWord(word);
      LargeMagnitude(word, size);
      v := ShiftLeft(v, 8 * (size - 3));
    }
    negative := word != 0 && compact / MANTISSA % 2 == 1;
    overflow := word != 0 && (size > 34 || (word > 0xff && size > 33) || (word > 0xffff && size > 32));
  }

  lemma SmallMagnitude(word: nat, size: nat)
    requires word < MANTISSA && size <= 3
    ensures Decoded(word, size) < MANTISSA && Mod(Decoded(word, size), Modulus()) == Decoded(word, size) < Modulus()
    ensures Quotient(word, TwoTo(8 * (3 - size))) == Decoded(word, size)
  {
    var p, q := TwoTo(8 * (3 - size)), Quotient(word, TwoTo(8 * (3 - size)));
    assert word == q * p + word % p;
    AtLeast(q, p);
    ModulusIsPower();
    PowGrows(2, 32, 256);
    TwoTo32();
    ModIs(q, Modulus(), 0, q);
  }

  lemma LargeMagnitude(word: nat, size: nat)
    requires word < MANTISSA && size > 3
    ensures Decoded(word, size) == word * Pow(2, 8 * (size - 3)) && (Decoded(word, size) == 0 <==> word == 0)
    ensures Decoded(word, size) >= Modulus() <==>
              word != 0 && (size > 34 || (word > 0xff && size > 33) || (word > 0xffff && size > 32))
  {
    hide Pow, Weight;
    var e := 8 * (size - 3);
    PowPositive(2, e);
    ModulusIsPower();
    ByteSizes();
    if word != 0 {
      ProductPositive(word, Pow(2, e));
      if size > 34 {
        PowGrows(2, 256, e);
        AtLeast(Pow(2, e), word);
      } else if size == 34 {
        PowAdd(2, 8, 248);
        Reaches(word, 256, Pow(2, 248));
      } else if size == 33 {
        PowAdd(2, 16, 240);
        Reaches(word, 65536, Pow(2, 240));
      } else {
        PowGrows(2, e, 232);
        MulStrict(word, MANTISSA, Pow(2, e));
        PowAdd(2, 23, 232);
        MulMonotone(Pow(2, e), Pow(2, 232), MANTISSA);
        PowGrows(2, 255, 256);
      }
    }
  }

  /** Products with a common factor compare as the other factors do. */
  lemma Reaches(a: nat, b: nat, p: nat)
    requires p > 0
    ensures a * p >= b * p <==> a >= b
  {
    if a >= b {
      MulMonotone(b, a, p);
    } else {
      MulStrict(a, b, p);
    }
  }

  lemma ByteSizes()
    ensures Pow(2, 8) == 256 && Pow(2, 16) == 65536 && Pow(2, 23) == MANTISSA && Pow(2, 24) == SIZE_UNIT && Pow(2, 15) == 32768 && Pow(2, 7) == 128
  {
    assert Pow(2, 1) == 2 && Pow(2, 2) == 4 && Pow(2, 3) == 8 && Pow(2, 4) == 16;
    PowAdd(2, 4, 3);
    PowAdd(2, 4, 4);
    PowAdd(2, 8, 7);
    PowAdd(2, 8, 8);
    PowAdd(2, 16, 7);
    PowAdd(2, 16, 8);
  }

  // ----- encoding

  /** The number of bytes of a number. */
  function Bytes(v: nat): nat {
    (BitsOf(v) + 7) / 8
  }

  function BitsOf(v: nat): nat {
    if v == 0 then 0 else 1 + BitsOf(v / 2)
  }

  lemma {:induction false} BitsOfIs(v: nat)
    ensures IsBits(v, BitsOf(v))
  {
    if v != 0 {
      BitsOfIs(v / 2);
      TwicePower(BitsOf(v / 2));
      if v / 2 == 0 {
        assert Pow(2, 0) == 1;
      } else {
        ZeroBits(v / 2, BitsOf(v / 2));
        TwicePower(BitsOf(v / 2) - 1);
      }
    }
  }

  lemma BitsUnique(v: nat, m: nat, n: nat)
    requires IsBits(v, m) && IsBits(v, n)
    ensures m == n
  {
    hide Pow;
    if m < n {
      PowGrows(2, m, n - 1);
    } else if n < m {
      PowGrows(2, n, m - 1);
    }
  }

  /** A number has a number of bytes if it lies between powers of 256. */
  lemma BytesAre(v: nat, size: nat)
    requires size > 0 && Pow(2, 8 * (size - 1)) <= v < Pow(2, 8 * size)
    ensures Bytes(v) == size
  {
    hide Pow;
    BitsOfIs(v);
    var n := BitsOf(v);
    if n <= 8 * (size - 1) {
      PowGrows(2, n, 8 * (size - 1));
    } else if n > 8 * size {
      PowGrows(2, 8 * size, n - 1);
    }
  }

  lemma BytesBound(v: nat)
    requires v > 0
    ensures Bytes(v) > 0 && Pow(2, 8 * (Bytes(v) - 1)) <= v < Pow(2, 8 * Bytes(v))
  {
    hide Pow;
    BitsOfIs(v);
    ZeroBits(v, BitsOf(v));
    PowGrows(2, 8 * (Bytes(v) - 1), BitsOf(v) - 1);
    PowGrows(2, BitsOf(v), 8 * Bytes(v));
  }

  /** The three most significant bytes. */
  function Leading(v: nat): nat {
    var size := Bytes(v);
    if size <= 3 then v * TwoTo(8 * (3 - size)) else Quotient(v, TwoTo(8 * (size - 3)))
  }

  /** The mantissa and the size: a mantissa that would look negative is shortened by a byte. */
  function Mantissa(v: nat): nat {
    if Leading(v) >= MANTISSA then Leading(v) / 256 else Leading(v)
  }

  function Size(v: nat): nat {
    if Leading(v) >= MANTISSA then Bytes(v) + 1 else Bytes(v)
  }

  function Compact(v: nat, negative: bool): nat {
    Mantissa(v) + Size(v) * SIZE_UNIT + if negative && Mantissa(v) != 0 then MANTISSA else 0
  }

  lemma LeadingBound(v: nat)
    ensures Leading(v) < SIZE_UNIT && (v > 0 ==> Leading(v) >= 65536)
  {
    hide Pow, Quotient;
    ByteSizes();
    if v == 0 {
      NoLeading();
    } else {
      BytesBound(v);
      var size := Bytes(v);
      if size <= 3 {
        var k := 8 * (3 - size);
        PowAdd(2, 8 * (size - 1), k);
        PowAdd(2, 8 * size, k);
        MulMonotone(Pow(2, 8 * (size - 1)), v, Pow(2, k));
        MulStrict(v, Pow(2, 8 * size), TwoTo(k));
      } else {
        var e := 8 * (size - 3);
        PowAdd(2, 16, e);
        PowAdd(2, 24, e);
        LeadingBetween(v, TwoTo(e), 65536, SIZE_UNIT);
      }
    }
  }

  lemma NoLeading()
    ensures Leading(0) == 0
  {
  }

  lemma LeadingBetween(v: nat, p: nat, low: nat, high: nat)
    requires p > 0 && low * p <= v < high * p
    ensures low <= Quotient(v, p) < high
  {
    var q := v / p;
    assert v == q * p + v % p;
    Reaches(q + 1, low + 1, p);
    Reaches(q, high, p);
    Distributes(q, 1, p);
    Distributes(low, 1, p);
    if q < low {
      MulStrict(q, low, p);
    }
  }

  lemma MantissaBound(v: nat)
    ensures Mantissa(v) < MANTISSA && (v > 0 ==> Mantissa(v) > 0) && (v == 0 ==> Mantissa(v) == 0 && Size(v) == 0)
  {
    LeadingBound(v);
    NoLeading();
  }

  /** A compact number that was encoded decodes to its mantissa and size. */
  lemma Unpacked(v: nat, negative: bool)
    ensures Compact(v, negative) % MANTISSA == Mantissa(v) && SizeOf(Compact(v, negative)) == Size(v)
    ensures SignOf(Compact(v, negative)) <==> negative && v > 0
    ensures Magnitude(Compact(v, negative)) == Decoded(Mantissa(v), Size(v))
  {
    MantissaBound(v);
    Unpack(Mantissa(v), Size(v), negative && Mantissa(v) != 0);
  }

  lemma Unpack(m: nat, size: nat, sign: bool)
    requires m < MANTISSA
    ensures var c := m + size * SIZE_UNIT + if sign then MANTISSA else 0;
            c % MANTISSA == m && SizeOf(c) == size && (SignOf(c) <==> sign)
  {
    var s := if sign then 1 else 0;
    var c := m + size * SIZE_UNIT + s * MANTISSA;
    DivisionIs(c, MANTISSA, 2 * size + s, m);
    DivisionIs(c, SIZE_UNIT, size, m + s * MANTISSA);
    DivisionIs(2 * size + s, 2, size, s);
  }

  // ----- encoding loses only low bits, and loses them once

  lemma SmallIsExact(v: nat)
    requires Bytes(v) <= 2 || (Bytes(v) == 3 && Leading(v) < MANTISSA)
    ensures Decoded(Mantissa(v), Size(v)) == v
  {
    hide Pow, TwoTo;
    var size := Bytes(v);
    var p := TwoTo(8 * (3 - size));
    assert Leading(v) == v * p;
    if Leading(v) >= MANTISSA {
      var q := TwoTo(8 * (2 - size));
      ByteFactor(8 * (2 - size));
      assert v * p == v * q * 256;
      DivisionIs(Leading(v), 256, v * q, 0);
      QuotientIs(v * q, q, v, 0);
    } else {
      QuotientIs(v * p, p, v, 0);
    }
  }

  lemma ByteFactor(e: nat)
    ensures TwoTo(e + 8) == TwoTo(e) * 256
  {
    ByteSizes();
    PowAdd(2, e, 8);
  }

  /** The leading bytes of a number with at least three. */
  lemma LeadingIsQuotient(v: nat)
    requires Bytes(v) >= 3
    ensures Leading(v) == Quotient(v, TwoTo(8 * (Bytes(v) - 3)))
  {
    if Bytes(v) == 3 {
      assert TwoTo(0) == 1;
      QuotientIs(v, 1, v, 0);
    }
  }

  /** A decoded large number has as many bytes, and the same mantissa. */
  lemma LargeDecodes(v: nat)
    requires Bytes(v) >= 3
    ensures var w := Decoded(Mantissa(v), Size(v)); w <= v && Mantissa(w) == Mantissa(v) && Size(w) == Size(v)
  {
    hide Pow, TwoTo, Quotient, BitsOf;
    if Bytes(v) == 3 && Leading(v) < MANTISSA {
      SmallIsExact(v);
    } else {
      LeadingIsQuotient(v);
      LeadingBound(v);
      NotEmpty(v);
      var e, m := 8 * (Bytes(v) - 3), Leading(v);
      QuotientBelowIt(v, TwoTo(e), m);
      if m >= MANTISSA {
        ByteFactor(e);
        Shortened(v, Bytes(v), e, m);
      } else {
        Kept(v, Bytes(v), e, m);
      }
    }
  }

  lemma NotEmpty(v: nat)
    requires Bytes(v) >= 3
    ensures v > 0
  {
  }

  lemma QuotientBelowIt(v: nat, p: nat, m: nat)
    requires p > 0 && m == Quotient(v, p)
    ensures m * p <= v
  {
    assert v == v / p * p + v % p;
  }

  /** The number with the given leading bytes and zeros behind them. */
  lemma LeadingOf(w: nat, size: nat, e: nat, m: nat)
    requires size >= 3 && e == 8 * (size - 3) && w == m * TwoTo(e) && 65536 <= m < SIZE_UNIT
    ensures Bytes(w) == size && Leading(w) == m
  {
    hide Pow, Quotient, BitsOf;
    ByteSizes();
    PowAdd(2, 16, e);
    PowAdd(2, 24, e);
    MulMonotone(65536, m, TwoTo(e));
    MulStrict(m, SIZE_UNIT, TwoTo(e));
    BytesAre(w, size);
    LeadingIsQuotient(w);
    QuotientIs(w, TwoTo(e), m, 0);
  }

  lemma Kept(v: nat, size: nat, e: nat, m: nat)
    requires size == Bytes(v) > 3 && e == 8 * (size - 3) && m == Leading(v) < MANTISSA && m >= 65536 && m * TwoTo(e) <= v
    ensures var w := Decoded(Mantissa(v), Size(v)); w <= v && Mantissa(w) == Mantissa(v) && Size(w) == Size(v)
  {
    hide Leading, Bytes, TwoTo;
    LeadingOf(m * TwoTo(e), size, e, m);
  }

  lemma Shortened(v: nat, size: nat, e: nat, m: nat)
    requires size == Bytes(v) >= 3 && e == 8 * (size - 3) && MANTISSA <= m == Leading(v) < SIZE_UNIT && m * TwoTo(e) <= v
    requires TwoTo(e + 8) == TwoTo(e) * 256
    ensures var w := Decoded(Mantissa(v), Size(v)); w <= v && Mantissa(w) == Mantissa(v) && Size(w) == Size(v)
  {
    hide Leading, Bytes, TwoTo;
    var k := m / 256;
    var w := k * TwoTo(e + 8);
    assert e + 8 == 8 * (size + 1 - 3);
    assert w == k * 256 * TwoTo(e);
    MulMonotone(k * 256, m, TwoTo(e));
    LeadingOf(w, size, e, k * 256);
  }

  /** Encoding rounds down, and encoding what was decoded changes nothing. */
  lemma EncodingRoundsDownOnce(v: nat, negative: bool)
    ensures var c := Compact(v, negative);
            Magnitude(c) <= v && Compact(Magnitude(c), negative) == c
  {
    hide Leading, Bytes, TwoTo, Pow;
    Unpacked(v, negative);
    if Bytes(v) >= 3 {
      LargeDecodes(v);
    } else {
      SmallIsExact(v);
    }
  }

  /** The remainder that a mantissa drops is less than its unit. */
  lemma UnitAbove(v: nat, p: nat, m: nat)
    requires p > 0 && m == Quotient(v, p)
    ensures v < (m + 1) * p
  {
    assert v == v / p * p + v % p;
    Distributes(m, 1, p);
  }

  /** Where bytes are dropped, the mantissa has at least sixteen bits, and the number is within one unit of it. */
  lemma Rounded(v: nat)
    requires Bytes(v) > 3 || (Bytes(v) == 3 && Leading(v) >= MANTISSA)
    ensures Size(v) >= 4 && Mantissa(v) >= 32768
    ensures v < (Mantissa(v) + 1) * TwoTo(8 * (Size(v) - 3))
  {
    hide Pow, TwoTo, Quotient, BitsOf;
    LeadingIsQuotient(v);
    LeadingBound(v);
    NotEmpty(v);
    var e, m := 8 * (Bytes(v) - 3), Leading(v);
    UnitAbove(v, TwoTo(e), m);
    if m >= MANTISSA {
      ByteFactor(e);
      WholeByte(v, m, TwoTo(e));
      assert e + 8 == 8 * (Size(v) - 3);
    }
  }

  lemma WholeByte(v: nat, m: nat, p: nat)
    requires v < (m + 1) * p
    ensures v < (m / 256 + 1) * (p * 256)
  {
    var k := m / 256 + 1;
    assert m + 1 <= k * 256;
    MulMonotone(m + 1, k * 256, p);
    assert k * 256 * p == k * (p * 256);
  }

  /** A magnitude of as many bytes or more is a multiple of the unit. */
  lemma LargerSize(x: nat, m: nat, size: nat, v: nat, w: nat, s: nat)
    requires 4 <= s <= size && x == m * TwoTo(8 * (size - 3)) && x <= v < (w + 1) * TwoTo(8 * (s - 3))
    ensures x <= w * TwoTo(8 * (s - 3))
  {
    hide Pow;
    var p, t := TwoTo(8 * (s - 3)), TwoTo(8 * (size - s));
    PowAdd(2, 8 * (size - s), 8 * (s - 3));
    assert 8 * (size - s) + 8 * (s - 3) == 8 * (size - 3);
    Associates(m, t, p);
    if m * t > w {
      MulMonotone(w + 1, m * t, p);
    }
    MulMonotone(m * t, if m * t > w then m * t else w, p);
  }

  /** A magnitude of fewer bytes is too small. */
  lemma SmallerSize(x: nat, m: nat, size: nat, w: nat, s: nat)
    requires 3 <= size < s && m < MANTISSA && x <= m * TwoTo(8 * (size - 3)) && w >= 32768
    ensures x <= w * TwoTo(8 * (s - 3))
  {
    hide Pow, TwoTo;
    var q := TwoTo(8 * (s - 4));
    ByteFactor(8 * (s - 4));
    assert 8 * (s - 4) + 8 == 8 * (s - 3);
    Larger(8 * (size - 3), 8 * (s - 4));
    MulMonotone(TwoTo(8 * (size - 3)), q, m);
    MulMonotone(m, 32768 * 256, q);
    MulMonotone(32768, w, q * 256);
  }

  lemma Larger(i: nat, j: nat)
    requires i <= j
    ensures TwoTo(i) <= TwoTo(j)
  {
    PowGrows(2, i, j);
  }

  lemma NotMore(m: nat, p: nat)
    requires p > 0
    ensures Quotient(m, p) <= m
  {
    AtLeast(m / p, p);
  }

  /** The encoded number is the largest one, of all that can be written, that is not above the number. */
  lemma EncodingIsClosest(v: nat, negative: bool, c: nat)
    requires Magnitude(c) <= v
    ensures Magnitude(c) <= Magnitude(Compact(v, negative))
  {
    hide Leading, Bytes, TwoTo, Pow, Quotient;
    Unpacked(v, negative);
    if Bytes(v) > 3 || (Bytes(v) == 3 && Leading(v) >= MANTISSA) {
      Rounded(v);
      var m, size := c % MANTISSA, SizeOf(c);
      if size >= Size(v) {
        LargerSize(Magnitude(c), m, size, v, Mantissa(v), Size(v));
      } else if size > 3 {
        SmallerSize(Magnitude(c), m, size, Mantissa(v), Size(v));
      } else {
        NotMore(m, TwoTo(8 * (3 - size)));
        NoShift();
        SmallerSize(Magnitude(c), m, 3, Mantissa(v), Size(v));
      }
    } else {
      SmallIsExact(v);
    }
  }

  lemma NoShift()
    ensures TwoTo(0) == 1
  {
  }

  // ----- the encoder

  lemma LowLimb(a: seq<Limb>)
    requires |a| == WIDTH && Value(a) < BASE
    ensures a[0] == Value(a)
  {
    hide Value;
    ValueSplit(a, 1);
    assert a[..1] == [a[0]];
    ValueOne(a[0]);
    OneWeight();
    NoRoom(a[0], Value(a[1..]), Value(a));
  }

  lemma OneWeight()
    ensures Weight(1) == BASE
  {
    WeightMore(0);
    NoLimbs();
  }

  lemma NoRoom(low: nat, rest: nat, v: nat)
    requires v == low + BASE * rest && v < BASE
    ensures v == low
  {
  }

  lemma FewBytes(a: seq<Limb>, size: nat)
    requires |a| == WIDTH && size == Bytes(Value(a))
    ensures size <= 32 && (size <= 3 ==> Value(a) < SIZE_UNIT)
  {
    hide Value, Pow, Weight;
    ValueBelow(a);
    ModulusIsPower();
    ByteSizes();
    if Value(a) > 0 {
      BytesBound(Value(a));
      if size > 32 {
        PowGrows(2, 256, 8 * (size - 1));
      } else if size <= 3 {
        PowGrows(2, 8 * size, 24);
      }
    }
  }

  /** Encode a number. */
  method GetCompact(a: seq<Limb>, negative: bool) returns (compact: nat)
    requires |a| == WIDTH
    ensures compact == Compact(Value(a), negative)
  {
    hide Value, Pow, Quotient, IsBits, Or, TwoTo, BitsOf, Weight;
    var bits := Bits(a);
    ghost var v := Value(a);
    BitsOfIs(v);
    BitsUnique(v, bits, BitsOf(v));
    var size := (bits + 7) / 8;
    FewBytes(a, size);
    LeadingBound(v);
    if size <= 3 {
      LowLimb(a);
      compact := a[0] * TwoTo(8 * (3 - size)) % BASE;
      DivisionIs(Leading(v), BASE, 0, Leading(v));
    } else {
      var bn := ShiftRight(a, 8 * (size - 3));
      ShiftIsLeading(v, size);
      LowLimb(bn);
      compact := bn[0];
    }
    assert compact == Leading(v);
    TopBit(compact);
    if compact / MANTISSA % 2 == 1 {
      compact := compact / 256;
      size := size + 1;
    }
    assert compact < MANTISSA && size < 256;
    PackSize(compact, size);
    compact := Or(compact, size * SIZE_UNIT);
    if negative && compact % MANTISSA != 0 {
      // The sign bit is still clear, so adding it is setting it.
      compact := compact + MANTISSA;
    }
  }

  lemma ShiftIsLeading(v: nat, size: nat)
    requires size == Bytes(v) > 3
    ensures Pow(2, 8 * (size - 3)) > 0 && Quotient(v, Pow(2, 8 * (size - 3))) == Leading(v)
  {
    PowPositive(2, 8 * (size - 3));
  }

  lemma TopBit(m: nat)
    requires m < SIZE_UNIT
    ensures m / MANTISSA % 2 == 1 <==> m >= MANTISSA
  {
    if m >= MANTISSA {
      DivisionIs(m, MANTISSA, 1, m - MANTISSA);
    } else {
      DivisionIs(m, MANTISSA, 0, m);
    }
  }

  lemma PackSize(m: nat, size: nat)
    requires m < MANTISSA
    ensures Or(m, size * SIZE_UNIT) == m + size * SIZE_UNIT && (m + size * SIZE_UNIT) % MANTISSA == m
  {
    hide Or;
    ByteSizes();
    DivisionIs(size * SIZE_UNIT, SIZE_UNIT, size, 0);
    OrIsSum(m, size * SIZE_UNIT, 24);
    DivisionIs(m + size * SIZE_UNIT, MANTISSA, 2 * size, m);
  }

  /** Decoding and encoding again what was encoded gives the same compact number. */
  method Recode(a: seq<Limb>, negative: bool) returns (compact: nat, again: nat)
    requires |a| == WIDTH
    ensures again == compact == Compact(Value(a), negative)
  {
    hide Value, Pow, Quotient, IsBits, TwoTo, BitsOf, Compact, Magnitude, SignOf, Mod, Weight;
    compact := GetCompact(a, negative);
    ValueBelow(a);
    CompactFits(a, negative);
    EncodingRoundsDownOnce(Value(a), negative);
    ghost var w := Magnitude(compact);
    ModIs(w, Modulus(), 0, w);
    var v, sign, overflow := SetCompact(compact);
    SignKept(Value(a), negative);
    again := GetCompact(v, sign);
  }

  lemma CompactFits(a: seq<Limb>, negative: bool)
    requires |a| == WIDTH
    ensures Compact(Value(a), negative) < BASE
  {
    hide Value, Leading, BitsOf;
    FewBytes(a, Bytes(Value(a)));
    MantissaBound(Value(a));
  }

  lemma SignKept(v: nat, negative: bool)
    ensures var c := Compact(v, negative);
            Compact(Magnitude(c), Magnitude(c) != 0 && SignOf(c)) == Compact(Magnitude(c), negative)
  {
    hide Leading, BitsOf, Decoded;
    Unpacked(v, negative);
    MantissaBound(v);
    var w := Magnitude(Compact(v, negative));
    MantissaBound(w);
    if w > 0 && v == 0 {
      EncodingRoundsDownOnce(v, negative);
    }
  }

  // ----- the work of a target

  /** A target that fits is never the largest number, so its successor is not zero. */
  lemma NotAllOnes(compact: nat)
    requires Magnitude(compact) < Modulus()
    ensures Magnitude(compact) + 1 < Modulus()
  {
    hide Pow, Weight, Quotient;
    var m, size := compact % MANTISSA, SizeOf(compact);
    ModulusIsPower();
    PowAdd(2, 1, 255);
    assert Pow(2, 1) == 2 by {
      PowZero(2);
      TwicePower(0);
    }
    if size <= 3 {
      SmallMagnitude(m, size);
      PowGrows(2, 32, 256);
      TwoTo32();
    } else {
      var e := 8 * (size - 3);
      PowAdd(2, 1, e - 1);
      EvenProduct(m, Pow(2, e - 1), TwoTo(e), Pow(2, 255), Modulus());
    }
  }

  lemma EvenProduct(m: nat, h: nat, p: nat, k: nat, all: nat)
    requires p == 2 * h && all == 2 * k && m * p < all
    ensures m * p + 1 < all
  {
    assert m * p == 2 * (m * h);
  }

  /** The expected number of hashes for a target. */
  method GetBlockProof(bits: nat) returns (work: seq<Limb>)
    requires bits < BASE
    ensures |work| == WIDTH
    ensures Magnitude(bits) == 0 || SignOf(bits) || Magnitude(bits) >= Modulus() ==> Value(work) == 0
    ensures 0 < Magnitude(bits) < Modulus() && !SignOf(bits) ==> Value(work) == Quotient(Modulus(), Magnitude(bits) + 1)
  {
    hide Value, Pow, Quotient, Magnitude, SignOf, Mod, Weight;
    var target, negative, overflow := SetCompact(bits);
    work := FromWord(0);
    if negative || overflow {
      return;
    }
    ghost var t := Magnitude(bits);
    ModIs(t, Modulus(), 0, t);
    var cmp := CompareTo(target, work);
    if cmp == 0 {
      return;
    }
    NotAllOnes(bits);
    var one := FromWord(1);
    var inverted := Complement(target);
    var next := Add(target, one);
    ModIs(t + 1, Modulus(), 0, t + 1);
    var ok, q := Divide(inverted, next);
    assert ok;
    work := Add(q, one);
    ProofIs(Modulus(), t + 1);
    ModIs(Quotient(Modulus() - (t + 1), t + 1) + 1, Modulus(), 0, Quotient(Modulus() - (t + 1), t + 1) + 1);
  }

  lemma ProofIs(m: nat, d: nat)
    requires 1 < d <= m
    ensures Quotient(m - d, d) + 1 == Quotient(m, d) < m
  {
    var q, r := (m - d) / d, (m - d) % d;
    assert m - d == q * d + r;
    Distributes(q, 1, d);
    QuotientIs(m, d, q + 1, r);
    MulStrict(1, d, q + 1);
  }
}
