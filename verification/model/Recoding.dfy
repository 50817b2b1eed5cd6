/** Digits written to another base, the most significant first, keeping the number of leading zeros. */
module Recoding {
  import opened Powers
  import opened Digits

  function Reversed(s: seq<nat>): (r: seq<nat>)
    ensures |r| == |s|
  {
    seq(|s|, i requires 0 <= i < |s| => s[|s| - 1 - i])
  }

  function Zeros(z: nat): (r: seq<nat>)
    ensures |r| == z
  {
    seq(z, _ => 0)
  }

  /** How many zeros come first. */
  function Leading(s: seq<nat>): (z: nat)
    ensures z <= |s|
  {
    if s != [] && s[0] == 0 then 1 + Leading(s[1..]) else 0
  }

  /** The number written by the digits, the most significant first. */
  function Big(s: seq<nat>, base: nat): nat {
    Number(Reversed(s), base)
  }

  function Recode(s: seq<nat>, base: nat, to: nat): seq<nat>
    requires to > 1
  {
    Zeros(Leading(s)) + Reversed(ToDigits(Big(s, base), to))
  }

  lemma ReversedTwice(s: seq<nat>)
    ensures Reversed(Reversed(s)) == s
  {
  }

  lemma ReversedConcat(a: seq<nat>, b: seq<nat>)
    ensures Reversed(a + b) == Reversed(b) + Reversed(a)
  {
  }

  lemma BigMore(s: seq<nat>, x: nat, base: nat)
    ensures Big(s + [x], base) == Big(s, base) * base + x
  {
    hide Reversed;
    ReversedConcat(s, [x]);
    assert Reversed([x]) == [x] by {
      ReversedOne(x);
    }
    assert ([x] + Reversed(s))[1..] == Reversed(s);
  }

  lemma ReversedOne(x: nat)
    ensures Reversed([x]) == [x]
  {
  }

  lemma {:induction false} LeadingIs(s: seq<nat>, z: nat)
    requires z <= |s| && (forall i | 0 <= i < z :: s[i] == 0) && (z < |s| ==> s[z] != 0)
    ensures Leading(s) == z
    decreases z
  {
    if z > 0 {
      LeadingIs(s[1..], z - 1);
    }
  }

  lemma {:induction false} LeadingZeros(s: seq<nat>)
    ensures (forall i | 0 <= i < Leading(s) :: s[i] == 0) && (Leading(s) < |s| ==> s[Leading(s)] != 0)
    decreases |s|
  {
    if s != [] && s[0] == 0 {
      LeadingZeros(s[1..]);
      forall i | 0 <= i < Leading(s) ensures s[i] == 0 {
        assert i > 0 ==> s[i] == s[1..][i - 1];
      }
    }
  }

  lemma LeadingMore(s: seq<nat>, x: nat)
    ensures Leading(s + [x]) == if Leading(s) == |s| && x == 0 then |s| + 1 else Leading(s)
  {
    hide Leading;
    LeadingZeros(s);
    LeadingIs(s + [x], if Leading(s) == |s| && x == 0 then |s| + 1 else Leading(s));
  }

  /** Leading zeros do not change the number. */
  lemma BigRest(s: seq<nat>, z: nat, base: nat)
    requires z <= |s| && forall i | 0 <= i < z :: s[i] == 0
    ensures Big(s, base) == Big(s[z..], base)
  {
    hide Number, Reversed;
    assert s == s[..z] + s[z..];
    ReversedConcat(s[..z], s[z..]);
    NumberConcat(Reversed(s[z..]), Reversed(s[..z]), base);
    assert Number(Reversed(s[..z]), base) == 0 by {
      ReversedZeros(s[..z]);
      ZeroNumber(Reversed(s[..z]), base);
    }
  }

  lemma ReversedZeros(s: seq<nat>)
    requires forall i | 0 <= i < |s| :: s[i] == 0
    ensures forall i | 0 <= i < |s| :: Reversed(s)[i] == 0
  {
  }

  /** Digits that do not start with a zero are those of their number. */
  lemma RestDigits(s: seq<nat>, base: nat)
    requires base > 1 && DigitsOk(s, base) && (s != [] ==> s[0] != 0)
    ensures Reversed(ToDigits(Big(s, base), base)) == s
  {
    hide Number, ToDigits;
    ReversedTwice(s);
    DigitsAre(Reversed(s), base);
  }

  /** A list of digits is its leading zeros followed by the digits of its number. */
  lemma Splits(s: seq<nat>, base: nat)
    requires base > 1 && DigitsOk(s, base)
    ensures s == Zeros(Leading(s)) + Reversed(ToDigits(Big(s, base), base))
  {
    hide Number, ToDigits, Leading, Reversed, Big;
    var z := Leading(s);
    LeadingZeros(s);
    BigRest(s, z, base);
    RestDigits(s[z..], base);
    assert s[..z] == Zeros(z);
    assert s == s[..z] + s[z..];
  }

  lemma RecodedParts(z: nat, n: nat, base: nat)
    requires base > 1
    ensures var s := Zeros(z) + Reversed(ToDigits(n, base));
            DigitsOk(s, base) && Leading(s) == z && Big(s, base) == n
  {
    hide Number, ToDigits, Leading;
    ToDigitsIs(n, base);
    var ds := ToDigits(n, base);
    var s := Zeros(z) + Reversed(ds);
    LeadingIs(s, z);
    BigRest(s, z, base);
    assert s[z..] == Reversed(ds);
    ReversedTwice(ds);
  }

  /** Writing digits to another base and back gives the digits again. */
  lemma RecodeTwice(s: seq<nat>, base: nat, to: nat)
    requires base > 1 && to > 1 && DigitsOk(s, base)
    ensures DigitsOk(Recode(s, base, to), to) && Recode(Recode(s, base, to), to, base) == s
  {
    hide Number, ToDigits, Leading, Reversed, Big, DigitsOk;
    RecodedParts(Leading(s), Big(s, base), to);
    Splits(s, base);
  }

  /** More digits never need fewer digits in the other base. */
  lemma RecodeGrows(s: seq<nat>, k: nat, base: nat, to: nat)
    requires base > 1 && to > 1 && k <= |s|
    ensures |Recode(s[..k], base, to)| <= |Recode(s, base, to)|
    decreases |s| - k
  {
    hide Number, ToDigits, Leading, Reversed, Big;
    if k == |s| {
      assert s[..k] == s;
    } else {
      RecodeGrows(s, k + 1, base, to);
      assert s[..k + 1] == s[..k] + [s[k]];
      RecodeGrowsOne(s[..k], s[k], base, to);
    }
  }

  lemma RecodeGrowsOne(s: seq<nat>, x: nat, base: nat, to: nat)
    requires base > 1 && to > 1
    ensures |Recode(s, base, to)| <= |Recode(s + [x], base, to)|
  {
    hide Number, ToDigits, Leading, Big;
    LeadingMore(s, x);
    BigMore(s, x, base);
    AtLeast(Big(s, base), base);
    LongerDigits(Big(s, base), Big(s + [x], base), to);
  }

  // ----- recoding digit by digit

  /** The buffer holds, to base `to`, the number of the digits read; `z` of them are leading zeros. */
  ghost predicate Recoded(s: seq<nat>, z: nat, n: nat, buffer: seq<nat>, length: nat, base: nat, to: nat) {
    && base > 1 && z <= |s| && Leading(s) == z && n == Big(s, base) && n < Pow(base, |s| - z)
    && Holds(buffer, length, n, to)
  }

  lemma StartRecoding(s: seq<nat>, z: nat, buffer: seq<nat>, base: nat, to: nat)
    requires z == |s| && base > 1 && to > 1
    requires (forall i | 0 <= i < z :: s[i] == 0) && (forall i | 0 <= i < |buffer| :: buffer[i] == 0)
    ensures Recoded(s, z, 0, buffer, 0, base, to)
  {
    hide Leading;
    LeadingIs(s, z);
    BigRest(s, z, base);
    assert s[z..] == [] && Reversed([]) == [];
  }

  /** Another digit leaves the number within the bound its digits give. */
  lemma NextFits(s: seq<nat>, z: nat, n: nat, buffer: seq<nat>, length: nat, base: nat, to: nat, x: nat, total: nat)
    requires Recoded(s, z, n, buffer, length, base, to) && x < base && |s| - z < total
    requires Pow(base, total) <= Pow(to, |buffer|)
    ensures n * base + x < Pow(base, |s| + 1 - z) && n * base + x < Pow(to, |buffer|)
  {
    hide Leading, Big, Holds, Pow;
    NextPower(base, |s| - z);
    MulStrict(n, Pow(base, |s| - z), base);
    PowGrows(base, |s| - z + 1, total);
  }

  lemma RecodeMore(s: seq<nat>, z: nat, n: nat, was: seq<nat>, length: nat, buffer: seq<nat>, longer: nat, base: nat, to: nat, x: nat)
    requires Recoded(s, z, n, was, length, base, to) && Holds(buffer, longer, n * base + x, to)
    requires n * base + x < Pow(base, |s| + 1 - z) && (|s| == z ==> x != 0)
    ensures Recoded(s + [x], z, n * base + x, buffer, longer, base, to)
  {
    hide Leading, Big, Holds, Pow;
    LeadingMore(s, x);
    BigMore(s, x, base);
  }

  lemma FinishRecoding(s: seq<nat>, z: nat, n: nat, buffer: seq<nat>, length: nat, base: nat, to: nat)
    requires Recoded(s, z, n, buffer, length, base, to)
    ensures length <= |buffer| && to > 1 && Zeros(z) + Reversed(buffer[..length]) == Recode(s, base, to)
  {
    hide Leading, Big, Pow, Reversed, ToDigits;
  }
}
