/** The checksum of Bech32 and Bech32m: a polynomial over the field of 32 elements, modulo a generator, held
    as six five-bit groups. */
module Bech32Checksums {
  type Word = bv32

  const CHECKSUM_SIZE: nat := 6

  /** Addition in the field is the exclusive or. */
  function Xor(a: Word, b: Word): Word {
    a ^ b
  }

  predicate HasBit(c: Word, bit: Word) {
    c & bit != 0
  }

  /** A constant, if a bit is set. */
  function IfBit(c: Word, bit: Word, k: Word): Word {
    if HasBit(c, bit) then k else 0
  }

  /** The multiple of the generator's lower part by the coefficient that is shifted out. */
  function Reduction(c0: Word): Word {
    Xor(Xor(Xor(Xor(IfBit(c0, 1, 0x3b6a57b2), IfBit(c0, 2, 0x26508e6d)), IfBit(c0, 4, 0x1ea119fa)),
            IfBit(c0, 8, 0x3d4233dd)), IfBit(c0, 16, 0x2a1462b3))
  }

  function Shifted(c: Word): Word {
    (c & 0x1ffffff) << 5
  }

  function Top(c: Word): Word {
    c >> 25
  }

  /** Multiply by the variable and add a coefficient. */
  function Step(c: Word, v: Word): Word {
    Xor(Xor(Shifted(c), v), Reduction(Top(c)))
  }

  /** Absorb a sequence of coefficients. */
  function Absorbed(c: Word, vs: seq<Word>): Word
    decreases |vs|
  {
    if vs == [] then c else Absorbed(Step(c, vs[0]), vs[1..])
  }

  function PolyMod(vs: seq<Word>): Word {
    Absorbed(1, vs)
  }

  // ----- linearity

  lemma XorAssociates(a: Word, b: Word, c: Word)
    ensures Xor(Xor(a, b), c) == Xor(a, Xor(b, c))
  {
  }

  lemma XorCommutes(a: Word, b: Word)
    ensures Xor(a, b) == Xor(b, a)
  {
  }

  lemma XorCancels(a: Word, b: Word)
    ensures Xor(a, 0) == a && Xor(0, a) == a && Xor(a, a) == 0 && (Xor(a, b) == 0 <==> a == b)
  {
  }

  lemma XorTwice(a: Word, b: Word)
    ensures Xor(Xor(a, b), b) == a && Xor(a, Xor(a, b)) == b
  {
    hide Xor;
    XorAssociates(a, b, b);
    XorCancels(b, b);
    XorCancels(a, a);
    XorAssociates(a, a, b);
  }

  lemma Regroup(a: Word, b: Word, c: Word, d: Word)
    ensures Xor(Xor(a, b), Xor(c, d)) == Xor(Xor(a, c), Xor(b, d))
  {
    hide Xor;
    XorAssociates(a, b, Xor(c, d));
    XorAssociates(b, c, d);
    XorCommutes(b, c);
    XorAssociates(c, b, d);
    XorAssociates(a, c, Xor(b, d));
  }

  lemma Bit1(a: Word, b: Word)
    ensures HasBit(Xor(a, b), 1) <==> HasBit(a, 1) != HasBit(b, 1)
  {
  }

  lemma Bit2(a: Word, b: Word)
    ensures HasBit(Xor(a, b), 2) <==> HasBit(a, 2) != HasBit(b, 2)
  {
  }

  lemma Bit4(a: Word, b: Word)
    ensures HasBit(Xor(a, b), 4) <==> HasBit(a, 4) != HasBit(b, 4)
  {
  }

  lemma Bit8(a: Word, b: Word)
    ensures HasBit(Xor(a, b), 8) <==> HasBit(a, 8) != HasBit(b, 8)
  {
  }

  lemma Bit16(a: Word, b: Word)
    ensures HasBit(Xor(a, b), 16) <==> HasBit(a, 16) != HasBit(b, 16)
  {
  }

  lemma IfBitLinear(a: Word, b: Word, bit: Word, k: Word)
    requires HasBit(Xor(a, b), bit) <==> HasBit(a, bit) != HasBit(b, bit)
    ensures IfBit(Xor(a, b), bit, k) == Xor(IfBit(a, bit, k), IfBit(b, bit, k))
  {
    hide HasBit, Xor;
    XorCancels(k, k);
    XorCancels(0, k);
  }

  lemma ReductionLinear(a: Word, b: Word)
    ensures Reduction(Xor(a, b)) == Xor(Reduction(a), Reduction(b))
  {
    hide IfBit, HasBit, Xor;
    Bit1(a, b);
    Bit2(a, b);
    Bit4(a, b);
    Bit8(a, b);
    Bit16(a, b);
    IfBitLinear(a, b, 1, 0x3b6a57b2);
    IfBitLinear(a, b, 2, 0x26508e6d);
    IfBitLinear(a, b, 4, 0x1ea119fa);
    IfBitLinear(a, b, 8, 0x3d4233dd);
    IfBitLinear(a, b, 16, 0x2a1462b3);
    var a1, a2, a3, a4 := IfBit(a, 1, 0x3b6a57b2), IfBit(a, 2, 0x26508e6d), IfBit(a, 4, 0x1ea119fa), IfBit(a, 8, 0x3d4233dd);
    var b1, b2, b3, b4 := IfBit(b, 1, 0x3b6a57b2), IfBit(b, 2, 0x26508e6d), IfBit(b, 4, 0x1ea119fa), IfBit(b, 8, 0x3d4233dd);
    Regroup(a1, b1, a2, b2);
    Regroup(Xor(a1, a2), Xor(b1, b2), a3, b3);
    Regroup(Xor(Xor(a1, a2), a3), Xor(Xor(b1, b2), b3), a4, b4);
    Regroup(Xor(Xor(Xor(a1, a2), a3), a4), Xor(Xor(Xor(b1, b2), b3), b4), IfBit(a, 16, 0x2a1462b3), IfBit(b, 16, 0x2a1462b3));
  }

  lemma ShiftedLinear(a: Word, b: Word)
    ensures Shifted(Xor(a, b)) == Xor(Shifted(a), Shifted(b)) && Top(Xor(a, b)) == Xor(Top(a), Top(b))
  {
  }

  /** A step is linear. */
  lemma StepLinear(a: Word, u: Word, b: Word, v: Word)
    ensures Step(Xor(a, b), Xor(u, v)) == Xor(Step(a, u), Step(b, v))
  {
    hide Reduction, Shifted, Xor, Top;
    ReductionLinear(Top(a), Top(b));
    ShiftedLinear(a, b);
    Regroup(Shifted(a), Shifted(b), u, v);
    Regroup(Xor(Shifted(a), u), Xor(Shifted(b), v), Reduction(Top(a)), Reduction(Top(b)));
  }

  /** A step is injective on remainders: the generator has a constant term. */
  lemma StepInjective(c: Word)
    requires c < 0x40000000 && Step(c, 0) == 0
    ensures c == 0
  {
  }

  /** Steps stay within six five-bit groups. */
  lemma StepBounded(c: Word, v: Word)
    requires v < 32
    ensures Step(c, v) < 0x40000000
  {
    hide Reduction, Xor;
    ReductionBounded(Top(c));
    SumBounded(Shifted(c), v);
    SumBounded(Xor(Shifted(c), v), Reduction(Top(c)));
  }

  lemma ReductionBounded(c0: Word)
    ensures Reduction(c0) < 0x40000000
  {
    hide Xor;
    SumBounded(IfBit(c0, 1, 0x3b6a57b2), IfBit(c0, 2, 0x26508e6d));
    var two := Xor(IfBit(c0, 1, 0x3b6a57b2), IfBit(c0, 2, 0x26508e6d));
    SumBounded(two, IfBit(c0, 4, 0x1ea119fa));
    var three := Xor(two, IfBit(c0, 4, 0x1ea119fa));
    SumBounded(three, IfBit(c0, 8, 0x3d4233dd));
    SumBounded(Xor(three, IfBit(c0, 8, 0x3d4233dd)), IfBit(c0, 16, 0x2a1462b3));
  }

  lemma SumBounded(a: Word, b: Word)
    requires a < 0x40000000 && b < 0x40000000
    ensures Xor(a, b) < 0x40000000
  {
  }

  /** The element-wise sum of two sequences. */
  function Sum(u: seq<Word>, v: seq<Word>): seq<Word>
    requires |u| == |v|
  {
    seq(|u|, i requires 0 <= i < |u| => Xor(u[i], v[i]))
  }

  /** Absorbing is linear. */
  lemma {:induction false} AbsorbedLinear(a: Word, u: seq<Word>, b: Word, v: seq<Word>)
    requires |u| == |v|
    ensures Absorbed(Xor(a, b), Sum(u, v)) == Xor(Absorbed(a, u), Absorbed(b, v))
    decreases |u|
  {
    hide Step, Xor;
    if u != [] {
      StepLinear(a, u[0], b, v[0]);
      AbsorbedLinear(Step(a, u[0]), u[1..], Step(b, v[0]), v[1..]);
      assert Sum(u, v)[1..] == Sum(u[1..], v[1..]);
    }
  }

  lemma {:induction false} AbsorbedConcat(c: Word, u: seq<Word>, v: seq<Word>)
    ensures Absorbed(c, u + v) == Absorbed(Absorbed(c, u), v)
    decreases |u|
  {
    hide Step;
    if u == [] {
      assert u + v == v;
    } else {
      AbsorbedConcat(Step(c, u[0]), u[1..], v);
      assert (u + v)[1..] == u[1..] + v;
    }
  }

  function Zeros(n: nat): seq<Word> {
    seq(n, _ => 0)
  }

  lemma StepZero()
    ensures Step(0, 0) == 0
  {
  }

  /** Zeros in front of nothing change nothing. */
  lemma {:induction false} NothingAbsorbed(n: nat)
    ensures Absorbed(0, Zeros(n)) == 0
  {
    hide Step;
    if n > 0 {
      StepZero();
      NothingAbsorbed(n - 1);
      assert Zeros(n)[1..] == Zeros(n - 1);
    }
  }

  /** Zeros behind something do not make it vanish. */
  lemma {:induction false} NeverVanishes(c: Word, n: nat)
    requires c < 0x40000000 && c != 0
    ensures Absorbed(c, Zeros(n)) != 0
    decreases n
  {
    hide Step;
    if n > 0 {
      if Step(c, 0) == 0 {
        StepInjective(c);
      }
      StepBounded(c, 0);
      NeverVanishes(Step(c, 0), n - 1);
      assert Zeros(n)[1..] == Zeros(n - 1);
    }
  }

  // ----- six groups

  ghost predicate Symbols(vs: seq<Word>) {
    forall i | 0 <= i < |vs| :: vs[i] < 32
  }

  /** Six symbols packed into a word, the first one highest. */
  function Pack(v0: Word, v1: Word, v2: Word, v3: Word, v4: Word, v5: Word): Word {
    (v0 << 25) | (v1 << 20) | (v2 << 15) | (v3 << 10) | (v4 << 5) | v5
  }

  function Packed(g: seq<Word>): Word
    requires |g| == CHECKSUM_SIZE
  {
    Pack(g[0], g[1], g[2], g[3], g[4], g[5])
  }

  /** The group at an index, shifted down by five bits for each group behind it. */
  function Group(w: Word, i: nat): Word
    requires i < CHECKSUM_SIZE
  {
    match i
    case 0 => (w >> 25) & 31
    case 1 => (w >> 20) & 31
    case 2 => (w >> 15) & 31
    case 3 => (w >> 10) & 31
    case 4 => (w >> 5) & 31
    case _ => w & 31
  }

  function Groups(w: Word): seq<Word> {
    [Group(w, 0), Group(w, 1), Group(w, 2), Group(w, 3), Group(w, 4), Group(w, 5)]
  }

  /** One more symbol at the end. */
  function Join(c: Word, v: Word): Word {
    (c << 5) | v
  }

  /** Absorbing six symbols from nothing packs them. */
  lemma SixSymbols(g: seq<Word>)
    requires |g| == CHECKSUM_SIZE && Symbols(g)
    ensures Absorbed(0, g) == Packed(g) < 0x40000000
  {
    hide Step, Join, Pack, Absorbed;
    AbsorbedSix(0, g);
    var v0, v1, v2, v3, v4, v5 := g[0], g[1], g[2], g[3], g[4], g[5];
    JoinBounds(v0, v1, v2, v3, v4);
    JoinAll(v0, v1, v2, v3, v4, v5);
    SmallStep(0, v0);
    SmallStep(v0, v1);
    var c2 := Join(v0, v1);
    SmallStep(c2, v2);
    var c3 := Join(c2, v2);
    SmallStep(c3, v3);
    var c4 := Join(c3, v3);
    SmallStep(c4, v4);
    SmallStep(Join(c4, v4), v5);
  }

  lemma AbsorbedSix(c: Word, g: seq<Word>)
    requires |g| == CHECKSUM_SIZE
    ensures Absorbed(c, g) == Step(Step(Step(Step(Step(Step(c, g[0]), g[1]), g[2]), g[3]), g[4]), g[5])
  {
    hide Step;
    assert g[1..][1..] == g[2..] && g[2..][1..] == g[3..] && g[3..][1..] == g[4..] && g[4..][1..] == g[5..] && g[5..][1..] == [];
    var c1 := Step(c, g[0]);
    var c2 := Step(c1, g[1]);
    var c3 := Step(c2, g[2]);
    var c4 := Step(c3, g[3]);
    var c5 := Step(c4, g[4]);
    assert Absorbed(c, g) == Absorbed(c1, g[1..]) == Absorbed(c2, g[2..]);
    assert Absorbed(c2, g[2..]) == Absorbed(c3, g[3..]) == Absorbed(c4, g[4..]);
    assert Absorbed(c4, g[4..]) == Absorbed(c5, g[5..]) == Step(c5, g[5]);
  }

  lemma JoinBounds(v0: Word, v1: Word, v2: Word, v3: Word, v4: Word)
    requires v0 < 32 && v1 < 32 && v2 < 32 && v3 < 32 && v4 < 32
    ensures Join(0, v0) == v0 && v0 < 0x2000000 && Join(v0, v1) < 0x2000000 && Join(Join(v0, v1), v2) < 0x2000000
    ensures Join(Join(Join(v0, v1), v2), v3) < 0x2000000 && Join(Join(Join(Join(v0, v1), v2), v3), v4) < 0x2000000
  {
  }

  lemma JoinAll(v0: Word, v1: Word, v2: Word, v3: Word, v4: Word, v5: Word)
    requires v0 < 32 && v1 < 32 && v2 < 32 && v3 < 32 && v4 < 32 && v5 < 32
    ensures Join(Join(Join(Join(Join(v0, v1), v2), v3), v4), v5) == Pack(v0, v1, v2, v3, v4, v5) < 0x40000000
  {
  }

  /** Without a sixth group nothing is reduced. */
  lemma SmallStep(c: Word, v: Word)
    requires c < 0x2000000 && v < 32
    ensures Step(c, v) == Join(c, v)
  {
    hide Join, Xor, Shifted, Reduction, Top;
    NoReduction(c);
    ShiftAndAdd(c, v);
  }

  lemma NoReduction(c: Word)
    requires c < 0x2000000
    ensures Reduction(Top(c)) == 0
  {
    assert Top(c) == 0;
  }

  lemma ShiftAndAdd(c: Word, v: Word)
    requires c < 0x2000000 && v < 32
    ensures Xor(Xor(Shifted(c), v), 0) == Join(c, v)
  {
  }

  /** Packing and taking groups are inverse. */
  lemma PackedGroups(w: Word)
    requires w < 0x40000000
    ensures Symbols(Groups(w)) && Packed(Groups(w)) == w
  {
    hide Pack;
    PackBits(w);
    GroupBounds(w);
  }

  lemma PackBits(w: Word)
    requires w < 0x40000000
    ensures Pack((w >> 25) & 31, (w >> 20) & 31, (w >> 15) & 31, (w >> 10) & 31, (w >> 5) & 31, w & 31) == w
  {
  }

  lemma GroupBounds(w: Word)
    ensures (w >> 25) & 31 < 32 && (w >> 20) & 31 < 32 && (w >> 15) & 31 < 32
    ensures (w >> 10) & 31 < 32 && (w >> 5) & 31 < 32 && w & 31 < 32
  {
  }

  lemma GroupsPacked(g: seq<Word>)
    requires |g| == CHECKSUM_SIZE && Symbols(g)
    ensures Groups(Packed(g)) == g
  {
    hide Pack;
    UnpackBits(g[0], g[1], g[2], g[3], g[4], g[5]);
  }

  lemma UnpackBits(v0: Word, v1: Word, v2: Word, v3: Word, v4: Word, v5: Word)
    requires v0 < 32 && v1 < 32 && v2 < 32 && v3 < 32 && v4 < 32 && v5 < 32
    ensures var w := Pack(v0, v1, v2, v3, v4, v5);
            && (w >> 25) & 31 == v0 && (w >> 20) & 31 == v1 && (w >> 15) & 31 == v2
            && (w >> 10) & 31 == v3 && (w >> 5) & 31 == v4 && w & 31 == v5
  {
  }

  // ----- checksums

  /** The six symbols to append so that the remainder becomes a constant. */
  function ChecksumFor(k: Word, vs: seq<Word>): seq<Word> {
    Groups(Xor(PolyMod(vs + Zeros(CHECKSUM_SIZE)), k))
  }

  lemma SumZeros(g: seq<Word>)
    ensures Sum(Zeros(|g|), g) == g
  {
    hide Xor;
    forall i | 0 <= i < |g| ensures Sum(Zeros(|g|), g)[i] == g[i] {
      XorCancels(g[i], 0);
    }
  }

  /** Appending symbols adds them, packed, to what appending zeros gives. */
  lemma AppendedSymbols(vs: seq<Word>, g: seq<Word>)
    requires |g| == CHECKSUM_SIZE && Symbols(g)
    ensures PolyMod(vs + g) == Xor(PolyMod(vs + Zeros(CHECKSUM_SIZE)), Packed(g)) && Packed(g) < 0x40000000
  {
    hide Xor, Absorbed, Packed;
    AbsorbedConcat(1, vs, g);
    AbsorbedConcat(1, vs, Zeros(CHECKSUM_SIZE));
    var c := Absorbed(1, vs);
    XorCancels(c, 0);
    SumZeros(g);
    AbsorbedLinear(c, Zeros(CHECKSUM_SIZE), 0, g);
    SixSymbols(g);
  }

  lemma {:induction false} AbsorbedBounded(c: Word, n: nat)
    requires n > 0
    ensures Absorbed(c, Zeros(n)) < 0x40000000
    decreases n
  {
    hide Step;
    StepBounded(c, 0);
    assert Zeros(n)[1..] == Zeros(n - 1);
    if n > 1 {
      AbsorbedBounded(Step(c, 0), n - 1);
    }
  }

  /** A created checksum verifies, and no other six symbols do. */
  lemma ChecksumIsTheOne(k: Word, vs: seq<Word>, g: seq<Word>)
    requires k < 0x40000000 && |g| == CHECKSUM_SIZE && Symbols(g)
    ensures Symbols(ChecksumFor(k, vs)) && |ChecksumFor(k, vs)| == CHECKSUM_SIZE
    ensures PolyMod(vs + g) == k <==> g == ChecksumFor(k, vs)
  {
    hide Xor, Absorbed, Packed, Groups;
    var rest := PolyMod(vs + Zeros(CHECKSUM_SIZE));
    AbsorbedConcat(1, vs, Zeros(CHECKSUM_SIZE));
    AbsorbedBounded(Absorbed(1, vs), CHECKSUM_SIZE);
    SumBounded(rest, k);
    var m := Xor(rest, k);
    PackedGroups(m);
    SixGroups(m);
    AppendedSymbols(vs, g);
    GroupsPacked(g);
    XorTwice(rest, Packed(g));
    XorTwice(rest, k);
  }

  lemma SixGroups(w: Word)
    ensures |Groups(w)| == CHECKSUM_SIZE
  {
  }

  // ----- bursts

  /** A change of at most six consecutive symbols. */
  ghost predicate IsBurst(e: seq<Word>, i: nat) {
    && i + CHECKSUM_SIZE <= |e| && Symbols(e)
    && (forall j | 0 <= j < |e| && !(i <= j < i + CHECKSUM_SIZE) :: e[j] == 0)
    && exists j | 0 <= j < |e| :: e[j] != 0
  }

  lemma {:induction false} PackedNonzero(g: seq<Word>)
    requires |g| == CHECKSUM_SIZE && Symbols(g) && exists j | 0 <= j < |g| :: g[j] != 0
    ensures Packed(g) != 0
  {
    hide Packed, Groups;
    GroupsPacked(g);
    ZeroGroups();
  }

  lemma ZeroGroups()
    ensures Groups(0) == [0, 0, 0, 0, 0, 0]
  {
  }

  /** A burst alone never has remainder zero. */
  lemma BurstRemains(e: seq<Word>, i: nat)
    requires IsBurst(e, i)
    ensures Absorbed(0, e) != 0
  {
    hide Absorbed, Packed;
    var g, n := e[i..i + CHECKSUM_SIZE], |e| - i - CHECKSUM_SIZE;
    assert e == Zeros(i) + (g + Zeros(n));
    NothingAbsorbed(i);
    AbsorbedConcat(0, Zeros(i), g + Zeros(n));
    AbsorbedConcat(0, g, Zeros(n));
    SixSymbols(g);
    var j :| 0 <= j < |e| && e[j] != 0;
    assert g[j - i] != 0;
    PackedNonzero(g);
    NeverVanishes(Packed(g), n);
  }

  /** A burst changes the remainder of every sequence. */
  lemma BurstDetected(vs: seq<Word>, e: seq<Word>, i: nat)
    requires |vs| == |e| && IsBurst(e, i)
    ensures PolyMod(Sum(vs, e)) != PolyMod(vs)
  {
    hide Xor, Absorbed, IsBurst;
    BurstRemains(e, i);
    XorCancels(1, 0);
    AbsorbedLinear(1, vs, 0, e);
    XorTwice(PolyMod(vs), Absorbed(0, e));
    XorCancels(PolyMod(vs), PolyMod(vs));
  }
}
