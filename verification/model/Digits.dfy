/** Numbers as digits to any base, the least significant first. */
module Digits {
  import opened Powers

  ghost predicate DigitsOk(ds: seq<nat>, base: nat) {
    forall i | 0 <= i < |ds| :: ds[i] < base
  }

  function Number(ds: seq<nat>, base: nat): nat {
    if ds == [] then 0 else ds[0] + base * Number(ds[1..], base)
  }

  /** Digits without leading zeros. */
  predicate Canonical(ds: seq<nat>) {
    ds != [] ==> ds[|ds| - 1] != 0
  }

  /** The digits of a number. */
  function ToDigits(n: nat, base: nat): seq<nat>
    requires base > 1
    decreases n
  {
    if n == 0 then []
    else
      Shrinks(n, base);
      [Mod(n, base)] + ToDigits(Quotient(n, base), base)
  }

  lemma Divided(n: nat, base: nat)
    requires base > 0
    ensures n == Mod(n, base) + base * Quotient(n, base) && 0 <= Mod(n, base) < base
  {
  }

  lemma Shrinks(n: nat, base: nat)
    requires n > 0 && base > 1
    ensures Quotient(n, base) < n && Mod(n, base) >= 0
  {
    hide Mod, Quotient;
    Divided(n, base);
    if Quotient(n, base) > 0 {
      MulStrict(1, base, Quotient(n, base));
    }
  }

  lemma {:induction false} NumberConcat(a: seq<nat>, b: seq<nat>, base: nat)
    ensures Number(a + b, base) == Number(a, base) + Pow(base, |a|) * Number(b, base)
    decreases |a|
  {
    if a == [] {
      assert a + b == b;
    } else {
      NumberConcat(a[1..], b, base);
      assert (a + b)[1..] == a[1..] + b;
      Associates(base, Pow(base, |a| - 1), Number(b, base));
      Spread(base, Number(a[1..], base), Pow(base, |a| - 1) * Number(b, base));
    }
  }

  lemma NumberOne(x: nat, base: nat)
    ensures Number([x], base) == x
  {
    assert [x][1..] == [];
  }

  lemma NumberMore(ds: seq<nat>, i: nat, base: nat)
    requires i < |ds|
    ensures Number(ds[..i + 1], base) == Number(ds[..i], base) + ds[i] * Pow(base, i)
  {
    hide Number, Pow;
    NumberConcat(ds[..i], [ds[i]], base);
    NumberOne(ds[i], base);
    assert ds[..i + 1] == ds[..i] + [ds[i]];
  }

  lemma {:induction false} NumberBelow(ds: seq<nat>, base: nat)
    requires base > 0 && DigitsOk(ds, base)
    ensures Number(ds, base) < Pow(base, |ds|)
    decreases |ds|
  {
    if ds != [] {
      NumberBelow(ds[1..], base);
      MulStrict(Number(ds[1..], base), Pow(base, |ds| - 1), base);
    }
  }

  lemma NumberAtLeast(ds: seq<nat>, base: nat)
    requires base > 0 && ds != [] && Canonical(ds)
    ensures Number(ds, base) >= Pow(base, |ds| - 1) > 0
  {
    hide Number, Pow;
    var n := |ds| - 1;
    NumberMore(ds, n, base);
    assert ds[..n + 1] == ds;
    PowPositive(base, n);
    AtLeast(Pow(base, n), ds[n]);
  }

  /** The digits of a number have its value and no leading zero. */
  lemma {:induction false} ToDigitsIs(n: nat, base: nat)
    requires base > 1
    ensures DigitsOk(ToDigits(n, base), base) && Canonical(ToDigits(n, base)) && Number(ToDigits(n, base), base) == n
    decreases n
  {
    hide Mod, Quotient;
    if n > 0 {
      Shrinks(n, base);
      Divided(n, base);
      var rest := ToDigits(Quotient(n, base), base);
      ToDigitsIs(Quotient(n, base), base);
      assert ([Mod(n, base)] + rest)[1..] == rest;
    }
  }

  /** Digits without leading zeros are the digits of their number. */
  lemma {:induction false} DigitsAre(ds: seq<nat>, base: nat)
    requires base > 1 && DigitsOk(ds, base) && Canonical(ds)
    ensures ToDigits(Number(ds, base), base) == ds
    decreases |ds|
  {
    hide Mod, Quotient, Pow;
    if ds != [] {
      NumberAtLeast(ds, base);
      var rest := ds[1..];
      DigitsAre(rest, base);
      ModIs(Number(ds, base), base, Number(rest, base), ds[0]);
      QuotientIs(Number(ds, base), base, Number(rest, base), ds[0]);
      assert ds == [ds[0]] + rest;
    }
  }

  /** A larger number has at least as many digits. */
  lemma LongerDigits(m: nat, n: nat, base: nat)
    requires base > 1 && m <= n
    ensures |ToDigits(m, base)| <= |ToDigits(n, base)|
  {
    hide ToDigits, Number, Pow;
    ToDigitsIs(m, base);
    ToDigitsIs(n, base);
    var a, b := ToDigits(m, base), ToDigits(n, base);
    if |a| > |b| {
      NumberAtLeast(a, base);
      NumberBelow(b, base);
      PowGrows(base, |b|, |a| - 1);
    }
  }

  // ----- multiplying and adding in place

  /** The buffer holds the digits of a number, and zeros above them. */
  ghost predicate Holds(buffer: seq<nat>, length: nat, n: nat, base: nat) {
    && base > 1 && length <= |buffer| && buffer[..length] == ToDigits(n, base)
    && forall i | length <= i < |buffer| :: buffer[i] == 0
  }

  /** The digits below `i` are multiplied and added to, with a carry to the next one. */
  ghost predicate Scaling(was: seq<nat>, buffer: seq<nat>, length: nat, i: nat, carry: nat, mult: nat, add: nat, base: nat) {
    && base > 1 && mult > 0 && length <= |was| == |buffer| && i <= |buffer| && buffer[i..] == was[i..]
    && DigitsOk(buffer, base)
    && Number(buffer[..i], base) + carry * Pow(base, i) == Number(was[..i], base) * mult + add
    && (length <= i && 0 < i && carry == 0 ==> buffer[i - 1] != 0)
  }

  /**
    Multiply the number in a buffer and add to it, from the last digit on. Position `i` of the array is the `i`th digit
    from the end. Nothing is carried out of the buffer when the result fits.
   */
  method MulAdd(buffer: array<nat>, length: nat, mult: nat, add: nat, base: nat, ghost n: nat) returns (longer: nat)
    requires Holds(buffer[..], length, n, base) && mult > 0 && n * mult + add < Pow(base, buffer.Length)
    modifies buffer
    ensures Holds(buffer[..], longer, n * mult + add, base)
  {
    hide Holds, Scaling, Pow, Number, ToDigits;
    ghost var was := buffer[..];
    var carry: nat := add;
    var i: nat := 0;
    StartScaling(was, length, mult, add, base, n);
    while (carry != 0 || i < length) && i < buffer.Length
      invariant i <= buffer.Length
      invariant Scaling(was, buffer[..], length, i, carry, mult, add, base)
      decreases buffer.Length - i
    {
      ScaleStep(was, buffer[..], length, i, carry, mult, add, base, n);
      ghost var before := buffer[..];
      var c := carry + mult * buffer[i];
      var digit: nat := c % base;
      buffer[i] := digit;
      carry := c / base;
      assert buffer[..] == before[i := digit];
      i := i + 1;
    }
    Scaled(was, buffer[..], length, i, carry, mult, add, base, n);
    assert carry == 0;
    longer := i;
  }

  lemma StartScaling(buffer: seq<nat>, length: nat, mult: nat, add: nat, base: nat, n: nat)
    requires Holds(buffer, length, n, base) && mult > 0
    ensures Scaling(buffer, buffer, length, 0, add, mult, add, base) && base > 1
  {
    hide ToDigits;
    ToDigitsIs(n, base);
    forall i | 0 <= i < |buffer| ensures buffer[i] < base {
      assert i < length ==> buffer[i] == buffer[..length][i];
    }
    assert buffer[..0] == [];
  }

  lemma ScaleStep(was: seq<nat>, buffer: seq<nat>, length: nat, i: nat, carry: nat, mult: nat, add: nat, base: nat, n: nat)
    requires Scaling(was, buffer, length, i, carry, mult, add, base) && i < |buffer| && (carry != 0 || i < length)
    requires Holds(was, length, n, base)
    ensures base > 0
    ensures var c := carry + mult * buffer[i];
            Scaling(was, buffer[i := c % base], length, i + 1, c / base, mult, add, base)
  {
    hide Number, Pow, ToDigits, Holds, DigitsOk, Canonical;
    var c := carry + mult * buffer[i];
    var digit: nat := c % base;
    var next := buffer[i := digit];
    assert buffer[i] == buffer[i..][0] == was[i..][0] == was[i];
    assert next[i + 1..] == was[i + 1..] by {
      assert next[i + 1..] == buffer[i..][1..] && was[i + 1..] == was[i..][1..];
    }
    assert DigitsOk(next, base) by {
      UpdateOk(buffer, i, digit, base);
    }
    ScaleNumber(was, buffer, next, i, carry, mult, add, base, c);
    if length <= i + 1 && c / base == 0 {
      TopDigit(was, length, i, carry, mult, base, n, c);
    }
  }

  lemma UpdateOk(ds: seq<nat>, i: nat, digit: nat, base: nat)
    requires DigitsOk(ds, base) && i < |ds| && digit < base
    ensures DigitsOk(ds[i := digit], base)
  {
  }

  lemma ScaleNumber(was: seq<nat>, buffer: seq<nat>, next: seq<nat>, i: nat, carry: nat, mult: nat, add: nat, base: nat, c: nat)
    requires base > 1 && i < |was| == |buffer| == |next| && c == carry + mult * was[i]
    requires next == buffer[i := (c % base) as nat]
    requires Number(buffer[..i], base) + carry * Pow(base, i) == Number(was[..i], base) * mult + add
    ensures Number(next[..i + 1], base) + c / base * Pow(base, i + 1) == Number(was[..i + 1], base) * mult + add
  {
    hide Number, Pow;
    NumberMore(was, i, base);
    NumberMore(next, i, base);
    assert next[..i] == buffer[..i];
    ScaleNumbers(Number(buffer[..i], base), carry, Pow(base, i), mult, Number(was[..i], base), add, was[i], base, c);
    NextPower(base, i);
  }

  lemma NextPower(base: nat, i: nat)
    ensures Pow(base, i + 1) == base * Pow(base, i)
  {
  }

  lemma ScaleNumbers(done: nat, carry: nat, w: nat, mult: nat, v: nat, add: nat, x: nat, base: nat, c: nat)
    requires base > 0 && done + carry * w == v * mult + add && c == carry + mult * x
    ensures done + c % base * w + c / base * (base * w) == (v + x * w) * mult + add
  {
    assert c == c / base * base + c % base;
    Distributes(c / base * base, c % base, w);
    Distributes(carry, mult * x, w);
    Associates(c / base, base, w);
    Associates(mult, x, w);
    Distributes(v, x * w, mult);
  }

  lemma TopDigit(was: seq<nat>, length: nat, i: nat, carry: nat, mult: nat, base: nat, n: nat, c: nat)
    requires Holds(was, length, n, base) && i < |was| && mult > 0 && (carry != 0 || i < length) && c == carry + mult * was[i]
    requires length <= i + 1 && c / base == 0
    ensures c % base != 0
  {
    hide ToDigits;
    assert c == c / base * base + c % base;
    if i < length {
      ToDigitsIs(n, base);
      assert was[i] == was[..length][i];
      ProductPositive(mult, was[i]);
    }
  }

  lemma Scaled(was: seq<nat>, buffer: seq<nat>, length: nat, i: nat, carry: nat, mult: nat, add: nat, base: nat, n: nat)
    requires Holds(was, length, n, base) && Scaling(was, buffer, length, i, carry, mult, add, base)
    requires (carry == 0 && i >= length) || i == |buffer|
    requires n * mult + add < Pow(base, |buffer|)
    ensures carry == 0 && Holds(buffer, i, n * mult + add, base)
  {
    hide Number, Pow, ToDigits, DigitsOk;
    HeldNumber(was, length, i, n, base);
    NoCarry(Number(buffer[..i], base), carry, Pow(base, i), n * mult + add, i == |buffer|);
    assert Canonical(buffer[..i]);
    assert DigitsOk(buffer[..i], base) by {
      PrefixOk(buffer, i, base);
    }
    DigitsAre(buffer[..i], base);
    forall k | i <= k < |buffer| ensures buffer[k] == 0 {
      assert buffer[k] == buffer[i..][k - i] == was[i..][k - i] == was[k];
    }
  }

  lemma PrefixOk(ds: seq<nat>, i: nat, base: nat)
    requires DigitsOk(ds, base) && i <= |ds|
    ensures DigitsOk(ds[..i], base)
  {
  }

  lemma NoCarry(v: nat, carry: nat, w: nat, total: nat, full: bool)
    requires v + carry * w == total && (!full ==> carry == 0) && (full ==> total < w)
    ensures carry == 0 && v == total
  {
    if carry > 0 {
      AtLeast(w, carry);
    }
  }

  /** Zeros above the digits do not change the number. */
  lemma HeldNumber(was: seq<nat>, length: nat, i: nat, n: nat, base: nat)
    requires Holds(was, length, n, base) && length <= i <= |was|
    ensures Number(was[..i], base) == n
  {
    hide ToDigits;
    ToDigitsIs(n, base);
    assert was[..i] == was[..length] + was[length..i];
    NumberConcat(was[..length], was[length..i], base);
    ZeroNumber(was[length..i], base);
  }

  lemma {:induction false} ZeroNumber(ds: seq<nat>, base: nat)
    requires forall i | 0 <= i < |ds| :: ds[i] == 0
    ensures Number(ds, base) == 0
    decreases |ds|
  {
    if ds != [] {
      ZeroNumber(ds[1..], base);
    }
  }
}
