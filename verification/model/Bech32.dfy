/** Bech32 and Bech32m strings: BIP 173, section "Bech32", and BIP 350, section "Bech32m". */
module Bech32s {
  import opened Bech32Checksums

  datatype Option<T> = None | Some(value: T)

  datatype Encoding = Bech32 | Bech32m

  /** A decoded string: the human-readable part, and the payload in five-bit symbols. */
  datatype Decoded = Decoded(encoding: Encoding, hrp: string, data: seq<Word>)

  const SEPARATOR := '1'
  const CHARSET: string := "qpzry9x8gf2tvdw0s3jn54khce6mua7l"

  function EncodingConstant(e: Encoding): Word {
    match e
    case Bech32 => 1
    case Bech32m => 0x2bc830a3
  }

  // ----- characters

  /** The index of a symbol. */
  function IndexOf(v: Word): nat
    requires v < 32
  {
    (v as bv5) as int
  }

  /** The symbol at an index. */
  function SymbolAt(i: nat): Word
    requires i < 32
  {
    (i as bv5) as Word
  }

  lemma SymbolIndex(v: Word)
    requires v < 32
    ensures IndexOf(v) < 32 && SymbolAt(IndexOf(v)) == v
  {
    FiveBits(v as bv5);
  }

  lemma FiveBits(b: bv5)
    ensures 0 <= b as int < 32 && (b as int) as bv5 == b
  {
  }

  lemma IndexSymbol(i: nat)
    requires i < 32
    ensures SymbolAt(i) < 32 && IndexOf(SymbolAt(i)) == i
  {
    FiveBitsBack(i);
    Widened(i as bv5);
  }

  lemma FiveBitsBack(i: nat)
    requires i < 32
    ensures (i as bv5) as int == i
  {
  }

  lemma Widened(b: bv5)
    ensures (b as Word) < 32 && (b as Word) as bv5 == b
  {
  }

  /** The character of a symbol. */
  function CharOf(v: Word): char
    requires v < 32
  {
    SymbolIndex(v);
    CHARSET[IndexOf(v)]
  }

  predicate IsUpper(c: char) {
    'A' <= c <= 'Z'
  }

  predicate IsLower(c: char) {
    'a' <= c <= 'z'
  }

  /** The letters of both cases go together. */
  lemma LetterCases(i: nat)
    requires i < 26
    ensures var upper, lower := "ABCDEFGHIJKLMNOPQRSTUVWXYZ"[i], "abcdefghijklmnopqrstuvwxyz"[i];
            IsUpper(upper) && IsLower(lower) && LowerCase(upper) == lower == LowerCase(lower)
  {
  }

  function LowerCase(c: char): char {
    if IsUpper(c) then ((c as int) - ('A' as int) + ('a' as int)) as char else c
  }

  /** The index of a character in the character set. */
  function Find(c: char, from: nat): Option<nat>
    requires from <= 32
    decreases 32 - from
  {
    if from == 32 then None else if CHARSET[from] == c then Some(from) else Find(c, from + 1)
  }

  /** The symbol of a character, in either case. */
  function SymbolOf(c: char): Option<Word> {
    match Find(LowerCase(c), 0)
    case None => None
    case Some(i) => if i < 32 then Some(SymbolAt(i)) else None
  }

  lemma CharsetDistinct()
    ensures forall i, j | 0 <= i < j < 32 :: CHARSET[i] != CHARSET[j]
  {
  }

  lemma CharsetPlain()
    ensures forall i | 0 <= i < 32 :: CHARSET[i] != SEPARATOR && !IsUpper(CHARSET[i]) && '!' <= CHARSET[i] <= '~'
  {
  }

  lemma {:induction false} FindIndex(i: nat, from: nat)
    requires from <= i < 32
    ensures Find(CHARSET[i], from) == Some(i)
    decreases i - from
  {
    CharsetDistinct();
    if from < i {
      FindIndex(i, from + 1);
    }
  }

  lemma {:induction false} FoundIndex(c: char, from: nat)
    requires from <= 32 && Find(c, from).Some?
    ensures Find(c, from).value < 32 && CHARSET[Find(c, from).value] == c
    decreases 32 - from
  {
    if CHARSET[from] != c {
      FoundIndex(c, from + 1);
    }
  }

  lemma SymbolRoundTrip(v: Word)
    requires v < 32
    ensures SymbolOf(CharOf(v)) == Some(v) && CharOf(v) != SEPARATOR && !IsUpper(CharOf(v)) && '!' <= CharOf(v) <= '~'
  {
    SymbolIndex(v);
    CharsetPlain();
    FindIndex(IndexOf(v), 0);
  }

  lemma CharRoundTrip(c: char)
    requires SymbolOf(c).Some?
    ensures SymbolOf(c).value < 32 && CharOf(SymbolOf(c).value) == LowerCase(c)
  {
    FoundIndex(LowerCase(c), 0);
    var i := Find(LowerCase(c), 0).value;
    IndexSymbol(i);
  }

  function Chars(vs: seq<Word>): string
    requires Symbols(vs)
  {
    seq(|vs|, i requires 0 <= i < |vs| => CharOf(vs[i]))
  }

  function Lower(s: string): string {
    seq(|s|, i requires 0 <= i < |s| => LowerCase(s[i]))
  }

  // ----- checksums

  /** The human-readable part as coefficients: high bits, a zero, and low bits. */
  function Expanded(hrp: string): seq<Word> {
    seq(|hrp|, i requires 0 <= i < |hrp| => ((hrp[i] as int) / 32) as Word) + [0] +
    seq(|hrp|, i requires 0 <= i < |hrp| => ((hrp[i] as int) % 32) as Word)
  }

  function CreateChecksum(e: Encoding, hrp: string, values: seq<Word>): seq<Word> {
    ChecksumFor(EncodingConstant(e), Expanded(hrp) + values)
  }

  function VerifyChecksum(hrp: string, values: seq<Word>): Option<Encoding> {
    var check := PolyMod(Expanded(hrp) + values);
    if check == EncodingConstant(Bech32) then Some(Bech32)
    else if check == EncodingConstant(Bech32m) then Some(Bech32m)
    else None
  }

  /** Six symbols after some values verify under an encoding exactly if they are the created checksum. */
  lemma ChecksumVerifies(e: Encoding, hrp: string, values: seq<Word>, g: seq<Word>)
    requires |g| == CHECKSUM_SIZE && Symbols(g)
    ensures Symbols(CreateChecksum(e, hrp, values)) && |CreateChecksum(e, hrp, values)| == CHECKSUM_SIZE
    ensures VerifyChecksum(hrp, values + g) == Some(e) <==> g == CreateChecksum(e, hrp, values)
  {
    hide PolyMod, ChecksumFor, Expanded;
    ChecksumIsTheOne(EncodingConstant(e), Expanded(hrp) + values, g);
    assert Expanded(hrp) + values + g == Expanded(hrp) + (values + g);
  }

  /** A change of up to six consecutive symbols after the separator never verifies under the same encoding. */
  lemma BurstNeverVerifies(e: Encoding, hrp: string, values: seq<Word>, change: seq<Word>, i: nat)
    requires |values| == |change| && IsBurst(change, i) && VerifyChecksum(hrp, values) == Some(e)
    ensures VerifyChecksum(hrp, Sum(values, change)) != Some(e)
  {
    hide PolyMod, Expanded, Xor;
    var x := Expanded(hrp);
    var all, burst := x + values, Zeros(|x|) + change;
    assert Sum(all, burst) == x + Sum(values, change) by {
      forall j | 0 <= j < |x| ensures Sum(all, burst)[j] == x[j] {
        XorCancels(x[j], 0);
      }
    }
    LaterBurst(|x|, change, i);
    BurstDetected(all, burst, i + |x|);
  }

  lemma LaterBurst(n: nat, e: seq<Word>, i: nat)
    requires IsBurst(e, i)
    ensures IsBurst(Zeros(n) + e, i + n)
  {
    var j :| 0 <= j < |e| && e[j] != 0;
    assert (Zeros(n) + e)[n + j] != 0;
  }

  // ----- strings

  /** The string for a human-readable part and values. */
  function Encoded(e: Encoding, hrp: string, values: seq<Word>): string
    requires Symbols(values)
  {
    ChecksumVerifies(e, hrp, values, Zeros(CHECKSUM_SIZE));
    hrp + [SEPARATOR] + Chars(values + CreateChecksum(e, hrp, values))
  }

  /** All characters are printable, and letters are all of one case. */
  ghost predicate CharactersOk(s: string) {
    && (forall i | 0 <= i < |s| :: '!' <= s[i] <= '~')
    && !((exists i | 0 <= i < |s| :: IsLower(s[i])) && (exists i | 0 <= i < |s| :: IsUpper(s[i])))
  }

  /** The last position of the separator. */
  ghost predicate LastSeparator(s: string, pos: nat) {
    pos < |s| && s[pos] == SEPARATOR && forall i | pos < i < |s| :: s[i] != SEPARATOR
  }

  ghost predicate AllSymbols(s: string) {
    forall i | 0 <= i < |s| :: SymbolOf(s[i]).Some?
  }

  function SymbolsOf(s: string): seq<Word>
    requires forall i | 0 <= i < |s| :: SymbolOf(s[i]).Some?
  {
    seq(|s|, i requires 0 <= i < |s| => SymbolOf(s[i]).value)
  }

  /** A string decodes to a human-readable part and a payload. */
  ghost predicate DecodesTo(s: string, limit: nat, d: Decoded) {
    && CharactersOk(s) && |s| <= limit
    && exists pos: nat :: DecodesAt(s, pos, d)
  }

  ghost predicate DecodesAt(s: string, pos: nat, d: Decoded) {
    && LastSeparator(s, pos) && pos > 0 && pos + CHECKSUM_SIZE < |s| && AllSymbols(s[pos + 1..])
    && d.hrp == Lower(s[..pos])
    && var values := SymbolsOf(s[pos + 1..]);
       d.data == values[..|values| - CHECKSUM_SIZE] && VerifyChecksum(d.hrp, values) == Some(d.encoding)
  }

  /** A string decodes in at most one way. */
  lemma DecodesOnce(s: string, limit: nat, d: Decoded, f: Decoded)
    requires DecodesTo(s, limit, d) && DecodesTo(s, limit, f)
    ensures d == f
  {
    hide VerifyChecksum, Lower, SymbolsOf, SymbolOf;
    var p :| DecodesAt(s, p, d);
    var q :| DecodesAt(s, q, f);
    assert p == q;
  }

  /** A human-readable part that the encoder accepts. */
  ghost predicate PlainHrp(hrp: string) {
    hrp != "" && forall i | 0 <= i < |hrp| :: '!' <= hrp[i] <= '~' && !IsUpper(hrp[i])
  }

  /** Strings that agree but for six consecutive characters. */
  ghost predicate AgreeOutside(s: string, t: string, i: nat) {
    && |t| == |s| && i + CHECKSUM_SIZE <= |s|
    && forall j | 0 <= j < |s| && !(i <= j < i + CHECKSUM_SIZE) :: t[j] == s[j]
  }

  /** Changing at most six consecutive characters after the separator gives a string that does not decode under
      the same encoding, unless only the case of letters or the place of the last separator was changed. */
  lemma BurstNeverDecodes(s: string, limit: nat, d: Decoded, pos: nat, t: string, i: nat, f: Decoded, limit': nat)
    requires CharactersOk(s) && |s| <= limit && DecodesAt(s, pos, d)
    requires pos < i && AgreeOutside(s, t, i) && LastSeparator(t, pos) && Lower(t) != Lower(s)
    requires f.encoding == d.encoding
    ensures !DecodesTo(t, limit', f)
  {
    hide VerifyChecksum, SymbolOf, LowerCase, CharactersOk;
    if DecodesTo(t, limit', f) {
      var q: nat :| DecodesAt(t, q, f);
      assert q == pos && t[..pos] == s[..pos];
      var a, b := SymbolsOf(s[pos + 1..]), SymbolsOf(t[pos + 1..]);
      SymbolsBack(s[pos + 1..]);
      SymbolsBack(t[pos + 1..]);
      TailsDiffer(s, t, pos, i);
      SumBack(a, b);
      BurstNeverVerifies(d.encoding, d.hrp, a, Sum(a, b), i - pos - 1);
    }
  }

  lemma SumBack(a: seq<Word>, b: seq<Word>)
    requires |a| == |b|
    ensures Sum(a, Sum(a, b)) == b
  {
    hide Xor;
    forall j | 0 <= j < |a| ensures Xor(a[j], Xor(a[j], b[j])) == b[j] {
      XorTwice(a[j], b[j]);
    }
  }

  /** The symbols after the separator differ by a burst. */
  lemma TailsDiffer(s: string, t: string, pos: nat, i: nat)
    requires pos < i && AgreeOutside(s, t, i) && Lower(t) != Lower(s)
    requires AllSymbols(s[pos + 1..]) && AllSymbols(t[pos + 1..])
    ensures IsBurst(Sum(SymbolsOf(s[pos + 1..]), SymbolsOf(t[pos + 1..])), i - pos - 1)
  {
    hide SymbolOf, LowerCase, Xor;
    var u, v := s[pos + 1..], t[pos + 1..];
    var a, b := SymbolsOf(u), SymbolsOf(v);
    var c := Sum(a, b);
    forall j | 0 <= j < |c| ensures c[j] < 32 && (c[j] == 0 <==> a[j] == b[j]) && (u[j] == v[j] ==> a[j] == b[j]) {
      CharRoundTrip(u[j]);
      CharRoundTrip(v[j]);
      SmallSum(a[j], b[j]);
      XorCancels(a[j], b[j]);
    }
    forall j | 0 <= j < |c| && !(i - pos - 1 <= j < i - pos - 1 + CHECKSUM_SIZE) ensures c[j] == 0 {
      assert u[j] == s[pos + 1 + j] && v[j] == t[pos + 1 + j];
    }
    var k :| 0 <= k < |s| && LowerCase(t[k]) != LowerCase(s[k]);
    assert k > pos && u[k - pos - 1] == s[k] && v[k - pos - 1] == t[k];
    CharRoundTrip(s[k]);
    CharRoundTrip(t[k]);
    assert c[k - pos - 1] != 0;
  }

  lemma SmallSum(a: Word, b: Word)
    requires a < 32 && b < 32
    ensures Xor(a, b) < 32
  {
  }

  // An exception: strings that differ in six consecutive characters, where one of them moves the last separator.
  const UNMOVED := "a16fchvtj"
  const MOVED := "a115ftyfj"

  lemma AbsorbNext(vs: seq<Word>, i: nat, c: Word, next: Word)
    requires i < |vs| && Step(c, vs[i]) == next
    ensures Absorbed(c, vs[i..]) == Absorbed(next, vs[i + 1..])
  {
    hide Step;
    assert vs[i..][1..] == vs[i + 1..];
  }

  lemma NoneAbsorbed(c: Word, vs: seq<Word>)
    ensures Absorbed(c, vs[|vs|..]) == c && vs[0..] == vs
  {
  }

  const UNMOVED_VALUES: seq<Word> := [3, 0, 1, 26, 9, 24, 23, 12, 11, 18]

  lemma UnmovedStart()
    ensures Absorbed(1, UNMOVED_VALUES[0..]) == Absorbed(0x2300749, UNMOVED_VALUES[5..])
  {
    hide Absorbed;
    AbsorbNext(UNMOVED_VALUES, 0, 0x1, 0x23);
    AbsorbNext(UNMOVED_VALUES, 1, 0x23, 0x460);
    AbsorbNext(UNMOVED_VALUES, 2, 0x460, 0x8c01);
    AbsorbNext(UNMOVED_VALUES, 3, 0x8c01, 0x11803a);
    AbsorbNext(UNMOVED_VALUES, 4, 0x11803a, 0x2300749);
  }

  lemma UnmovedRemainder()
    ensures PolyMod(UNMOVED_VALUES) == 1
  {
    hide Absorbed;
    UnmovedStart();
    AbsorbNext(UNMOVED_VALUES, 5, 0x2300749, 0x3d6abe8a);
    AbsorbNext(UNMOVED_VALUES, 6, 0x3d6abe8a, 0x2f017ae);
    AbsorbNext(UNMOVED_VALUES, 7, 0x2f017ae, 0x2568a27e);
    AbsorbNext(UNMOVED_VALUES, 8, 0x2568a27e, 0x2150a315);
    AbsorbNext(UNMOVED_VALUES, 9, 0x2150a315, 0x1);
    NoneAbsorbed(1, UNMOVED_VALUES);
  }

  const MOVED_VALUES: seq<Word> := [3, 1, 0, 1, 17, 20, 9, 11, 4, 9, 18]

  lemma MovedStart()
    ensures Absorbed(1, MOVED_VALUES[0..]) == Absorbed(0x2308031, MOVED_VALUES[5..])
  {
    hide Absorbed;
    AbsorbNext(MOVED_VALUES, 0, 0x1, 0x23);
    AbsorbNext(MOVED_VALUES, 1, 0x23, 0x461);
    AbsorbNext(MOVED_VALUES, 2, 0x461, 0x8c20);
    AbsorbNext(MOVED_VALUES, 3, 0x8c20, 0x118401);
    AbsorbNext(MOVED_VALUES, 4, 0x118401, 0x2308031);
  }

  lemma MovedRemainder()
    ensures PolyMod(MOVED_VALUES) == 1
  {
    hide Absorbed;
    MovedStart();
    AbsorbNext(MOVED_VALUES, 5, 0x2308031, 0x3d7a5186);
    AbsorbNext(MOVED_VALUES, 6, 0x3d7a5186, 0xedf630);
    AbsorbNext(MOVED_VALUES, 7, 0xedf630, 0x1dbec60b);
    AbsorbNext(MOVED_VALUES, 8, 0x1dbec60b, 0x326b652e);
    AbsorbNext(MOVED_VALUES, 9, 0x326b652e, 0x2150a315);
    AbsorbNext(MOVED_VALUES, 10, 0x2150a315, 0x1);
    NoneAbsorbed(1, MOVED_VALUES);
  }

  lemma ExpandedA()
    ensures Expanded("a") == [3, 0, 1]
  {
  }

  lemma ExpandedA1()
    ensures Expanded("a1") == [3, 1, 0, 1, 17]
  {
    assert ('a' as int) / 32 == 3 && ('1' as int) / 32 == 1 && ('a' as int) % 32 == 1 && ('1' as int) % 32 == 17;
  }

  lemma Created(e: Encoding, hrp: string, values: seq<Word>, g: seq<Word>, all: seq<Word>, tail: string)
    requires all == Expanded(hrp) + (values + g) && PolyMod(all) == EncodingConstant(e) && |g| == CHECKSUM_SIZE && Symbols(values + g)
    requires Chars(values + g) == tail
    ensures Symbols(values) && Encoded(e, hrp, values) == hrp + [SEPARATOR] + tail
  {
    hide PolyMod, Expanded, CreateChecksum;
    assert values == (values + g)[..|values|] && g == (values + g)[|values|..];
    ChecksumVerifies(e, hrp, values, g);
  }

  lemma UnmovedIs()
    ensures Symbols([26]) && Encoded(Bech32, "a", [26]) == UNMOVED
  {
    hide PolyMod, Expanded, Encoded;
    UnmovedRemainder();
    ExpandedA();
    CharsAre([26] + [9, 24, 23, 12, 11, 18], "6fchvtj");
    Created(Bech32, "a", [26], [9, 24, 23, 12, 11, 18], UNMOVED_VALUES, "6fchvtj");
  }

  lemma MovedIs()
    ensures Symbols([]) && Encoded(Bech32, "a1", []) == MOVED
  {
    hide PolyMod, Expanded, Encoded;
    MovedRemainder();
    ExpandedA1();
    CharsAre([] + [20, 9, 11, 4, 9, 18], "5ftyfj");
    Created(Bech32, "a1", [], [20, 9, 11, 4, 9, 18], MOVED_VALUES, "5ftyfj");
  }

  lemma CharsAre(vs: seq<Word>, s: string)
    requires Symbols(vs) && |s| == |vs| && forall i | 0 <= i < |s| :: CHARSET[IndexOf(vs[i])] == s[i]
    ensures Chars(vs) == s
  {
  }

  /** Both decode under the same encoding, although they agree but for six consecutive characters. */
  lemma SeparatorMoved()
    ensures AgreeOutside(UNMOVED, MOVED, 2)
    ensures DecodesTo(UNMOVED, 90, Decoded(Bech32, "a", [26])) && DecodesTo(MOVED, 90, Decoded(Bech32, "a1", []))
  {
    hide DecodesTo, Encoded, Symbols;
    UnmovedIs();
    MovedIs();
    EncodedDecodes(Bech32, "a", [26], 90);
    EncodedDecodes(Bech32, "a1", [], 90);
  }

  /** What is encoded decodes to itself. */
  lemma EncodedDecodes(e: Encoding, hrp: string, values: seq<Word>, limit: nat)
    requires PlainHrp(hrp) && Symbols(values) && |hrp| + 1 + |values| + CHECKSUM_SIZE <= limit
    ensures DecodesTo(Encoded(e, hrp, values), limit, Decoded(e, hrp, values))
  {
    hide VerifyChecksum, CreateChecksum, CharOf, SymbolOf, LowerCase;
    var g := CreateChecksum(e, hrp, values);
    LowerStays(hrp);
    ChecksumVerifies(e, hrp, values, Zeros(CHECKSUM_SIZE));
    ChecksumVerifies(e, hrp, values, g);
    var all, s, pos := values + g, Encoded(e, hrp, values), |hrp|;
    var tail := Chars(all);
    assert s[pos + 1..] == tail && s[..pos] == hrp && s[pos] == SEPARATOR;
    TailSymbols(all);
    forall i | pos < i < |s| ensures s[i] != SEPARATOR {
      assert s[i] == tail[i - pos - 1];
    }
    forall i | 0 <= i < |s| ensures '!' <= s[i] <= '~' && !IsUpper(s[i]) {
      assert i > pos ==> s[i] == tail[i - pos - 1];
    }
    assert all[..|all| - CHECKSUM_SIZE] == values;
    assert DecodesAt(s, pos, Decoded(e, hrp, values));
  }

  lemma LowerStays(s: string)
    requires forall i | 0 <= i < |s| :: !IsUpper(s[i])
    ensures Lower(s) == s
  {
  }

  lemma TailSymbols(all: seq<Word>)
    requires Symbols(all)
    ensures AllSymbols(Chars(all)) && SymbolsOf(Chars(all)) == all
    ensures forall i | 0 <= i < |all| :: Chars(all)[i] != SEPARATOR && !IsUpper(Chars(all)[i]) && '!' <= Chars(all)[i] <= '~'
  {
    hide CharOf, SymbolOf;
    forall i | 0 <= i < |all|
      ensures SymbolOf(Chars(all)[i]) == Some(all[i]) && Chars(all)[i] != SEPARATOR && !IsUpper(Chars(all)[i]) && '!' <= Chars(all)[i] <= '~'
    {
      SymbolRoundTrip(all[i]);
    }
  }

  /** What is decoded encodes to the same string in lower case. */
  lemma DecodedEncodes(s: string, limit: nat, d: Decoded)
    requires DecodesTo(s, limit, d)
    ensures Symbols(d.data) && Encoded(d.encoding, d.hrp, d.data) == Lower(s)
  {
    hide VerifyChecksum, CreateChecksum, CharOf, SymbolOf, CharactersOk, LowerCase;
    var pos: nat :| DecodesAt(s, pos, d);
    var tail := s[pos + 1..];
    var values := SymbolsOf(tail);
    var n := |values| - CHECKSUM_SIZE;
    SymbolsBack(tail);
    var g := values[n..];
    assert values == d.data + g;
    ChecksumVerifies(d.encoding, d.hrp, d.data, g);
    assert Lower(s) == Lower(s[..pos]) + [LowerCase(SEPARATOR)] + Lower(tail);
    SeparatorStays();
  }

  lemma SeparatorStays()
    ensures LowerCase(SEPARATOR) == SEPARATOR
  {
  }

  lemma SymbolsBack(s: string)
    requires AllSymbols(s)
    ensures Symbols(SymbolsOf(s)) && Chars(SymbolsOf(s)) == Lower(s)
  {
    hide CharOf, SymbolOf, LowerCase;
    forall i | 0 <= i < |s| ensures SymbolsOf(s)[i] < 32 && CharOf(SymbolsOf(s)[i]) == LowerCase(s[i]) {
      CharRoundTrip(s[i]);
    }
  }

  // ----- the code

  /** The remainder of a sequence of coefficients. */
  method ComputePolyMod(vs: seq<Word>) returns (c: Word)
    ensures c == PolyMod(vs)
  {
    hide Step, Xor, Shifted, Reduction, Top;
    c := 1;
    var i := 0;
    assert vs[0..] == vs;
    while i < |vs|
      invariant 0 <= i <= |vs| && Absorbed(c, vs[i..]) == PolyMod(vs)
    {
      assert vs[i..][1..] == vs[i + 1..];
      c := StepOf(c, vs[i]);
      i := i + 1;
    }
  }

  method StepOf(c: Word, v: Word) returns (r: Word)
    ensures r == Step(c, v)
  {
    hide IfBit, Xor, HasBit;
    var c0 := c >> 25;
    var start := Xor((c & 0x1ffffff) << 5, v);
    r := AddIf(start, c0, 1, 0x3b6a57b2);
    r := AddIf(r, c0, 2, 0x26508e6d);
    r := AddIf(r, c0, 4, 0x1ea119fa);
    r := AddIf(r, c0, 8, 0x3d4233dd);
    r := AddIf(r, c0, 16, 0x2a1462b3);
    Nested(start, IfBit(c0, 1, 0x3b6a57b2), IfBit(c0, 2, 0x26508e6d), IfBit(c0, 4, 0x1ea119fa), IfBit(c0, 8, 0x3d4233dd), IfBit(c0, 16, 0x2a1462b3));
  }

  method AddIf(r: Word, c0: Word, bit: Word, k: Word) returns (sum: Word)
    ensures sum == Xor(r, IfBit(c0, bit, k))
  {
    hide Xor;
    sum := r;
    if c0 & bit != 0 {
      sum := Xor(sum, k);
    } else {
      XorCancels(r, 0);
    }
  }

  lemma Nested(s: Word, a: Word, b: Word, c: Word, d: Word, e: Word)
    ensures Xor(Xor(Xor(Xor(Xor(s, a), b), c), d), e) == Xor(s, Xor(Xor(Xor(Xor(a, b), c), d), e))
  {
    hide Xor;
    XorAssociates(s, a, b);
    XorAssociates(s, Xor(a, b), c);
    XorAssociates(s, Xor(Xor(a, b), c), d);
    XorAssociates(s, Xor(Xor(Xor(a, b), c), d), e);
  }

  /** Check that all characters are printable and letters are not of both cases. */
  method CheckCharacters(s: string) returns (ok: bool)
    ensures ok <==> CharactersOk(s)
  {
    var lower, upper := false, false;
    ok := true;
    var i := 0;
    while i < |s|
      invariant 0 <= i <= |s|
      invariant ok ==> (lower <==> exists j | 0 <= j < i :: IsLower(s[j])) && (upper <==> exists j | 0 <= j < i :: IsUpper(s[j]))
      invariant ok ==> !(lower && upper) && forall j | 0 <= j < i :: '!' <= s[j] <= '~'
      invariant !ok ==> !CharactersOk(s)
    {
      var c := s[i];
      if IsLower(c) {
        if upper {
          ok := false;
        } else {
          lower := true;
        }
      } else if IsUpper(c) {
        if lower {
          ok := false;
        } else {
          upper := true;
        }
      } else if c < '!' || c > '~' {
        ok := false;
      }
      i := i + 1;
    }
  }

  /** Encode values with their checksum behind a human-readable part. */
  method Encode(e: Encoding, hrp: string, values: seq<Word>) returns (ret: string)
    requires Symbols(values) && forall i | 0 <= i < |hrp| :: !IsUpper(hrp[i])
    ensures ret == Encoded(e, hrp, values)
  {
    hide CharOf, ChecksumFor, Expanded, Absorbed, Groups;
    ChecksumVerifies(e, hrp, values, Zeros(CHECKSUM_SIZE));
    var zeros := Expanded(hrp) + values + Zeros(CHECKSUM_SIZE);
    var mod := ComputePolyMod(zeros);
    var checksum := Groups(Xor(mod, EncodingConstant(e)));
    ChecksumIs(e, hrp, values, checksum);
    var all := values + checksum;
    var tail := "";
    var i := 0;
    while i < |all|
      invariant 0 <= i <= |all| && |tail| == i
      invariant forall j | 0 <= j < i :: tail[j] == CharOf(all[j])
    {
      tail := tail + [CharOf(all[i])];
      i := i + 1;
    }
    assert tail == Chars(all);
    ret := hrp + [SEPARATOR] + tail;
  }

  lemma ChecksumIs(e: Encoding, hrp: string, values: seq<Word>, g: seq<Word>)
    requires g == Groups(Xor(PolyMod(Expanded(hrp) + values + Zeros(CHECKSUM_SIZE)), EncodingConstant(e)))
    ensures g == CreateChecksum(e, hrp, values)
  {
  }

  /** Find the last separator. */
  method FindSeparator(s: string) returns (pos: int)
    ensures -1 <= pos < |s|
    ensures if pos >= 0 then LastSeparator(s, pos) else forall i | 0 <= i < |s| :: s[i] != SEPARATOR
  {
    pos := |s| - 1;
    while pos >= 0 && s[pos] != SEPARATOR
      invariant -1 <= pos < |s| && forall i | pos < i < |s| :: s[i] != SEPARATOR
    {
      pos := pos - 1;
    }
  }

  /** Decode a string. */
  method Decode(s: string, limit: nat) returns (r: Option<Decoded>)
    ensures r.Some? ==> DecodesTo(s, limit, r.value)
    ensures r.None? ==> forall d :: !DecodesTo(s, limit, d)
  {
    hide CharactersOk, SymbolOf, LowerCase, PolyMod, EncodingConstant, Expanded;
    r := None;
    var ok := CheckCharacters(s);
    if !ok {
      return;
    }
    var pos := FindSeparator(s);
    if |s| > limit {
      return;
    }
    if pos < 0 || pos == 0 || pos + CHECKSUM_SIZE >= |s| {
      NoPlace(s, limit, pos);
      return;
    }
    var values: seq<Word> := [];
    var i := 0;
    while i < |s| - 1 - pos
      invariant 0 <= i <= |s| - 1 - pos && |values| == i
      invariant forall j | 0 <= j < i :: SymbolOf(s[pos + 1..][j]) == Some(values[j])
    {
      var rev := SymbolOf(s[i + pos + 1]);
      if rev.None? {
        BadSymbol(s, limit, pos, i);
        return;
      }
      values := values + [rev.value];
      i := i + 1;
    }
    var hrp := Lower(s[..pos]);
    TailDecoded(s[pos + 1..], values);
    var check := ComputePolyMod(Expanded(hrp) + values);
    var e := if check == EncodingConstant(Bech32) then Some(Bech32) else if check == EncodingConstant(Bech32m) then Some(Bech32m) else None;
    WhenVerified(s, limit, pos, hrp, values, e);
    if e.Some? {
      r := Some(Decoded(e.value, hrp, values[..|values| - CHECKSUM_SIZE]));
    }
  }

  lemma TailDecoded(tail: string, values: seq<Word>)
    requires |values| == |tail| && forall j | 0 <= j < |tail| :: SymbolOf(tail[j]) == Some(values[j])
    ensures AllSymbols(tail) && values == SymbolsOf(tail)
  {
  }

  lemma NoPlace(s: string, limit: nat, pos: int)
    requires -1 <= pos < |s| && (if pos >= 0 then LastSeparator(s, pos) else forall i | 0 <= i < |s| :: s[i] != SEPARATOR)
    requires pos <= 0 || pos + CHECKSUM_SIZE >= |s|
    ensures forall d :: !DecodesTo(s, limit, d)
  {
    hide VerifyChecksum, SymbolOf, CharactersOk, Lower, SymbolsOf;
    forall d ensures !DecodesTo(s, limit, d) {
      forall q: nat ensures !DecodesAt(s, q, d) {
      }
    }
  }

  lemma BadSymbol(s: string, limit: nat, pos: nat, i: nat)
    requires LastSeparator(s, pos) && i < |s| - 1 - pos && SymbolOf(s[i + pos + 1]).None?
    ensures forall d :: !DecodesTo(s, limit, d)
  {
    hide VerifyChecksum, SymbolOf, CharactersOk, Lower, SymbolsOf;
    assert s[pos + 1..][i] == s[i + pos + 1];
    forall d ensures !DecodesTo(s, limit, d) {
      forall q: nat ensures !DecodesAt(s, q, d) {
        assert LastSeparator(s, q) ==> q == pos;
      }
    }
  }

  lemma WhenVerified(s: string, limit: nat, pos: nat, hrp: string, values: seq<Word>, e: Option<Encoding>)
    requires CharactersOk(s) && |s| <= limit && LastSeparator(s, pos) && 0 < pos && pos + CHECKSUM_SIZE < |s|
    requires AllSymbols(s[pos + 1..]) && values == SymbolsOf(s[pos + 1..]) && hrp == Lower(s[..pos]) && e == VerifyChecksum(hrp, values)
    ensures e.Some? ==> DecodesTo(s, limit, Decoded(e.value, hrp, values[..|values| - CHECKSUM_SIZE]))
    ensures e.None? ==> forall d :: !DecodesTo(s, limit, d)
  {
    hide VerifyChecksum, SymbolOf, CharactersOk, Lower, SymbolsOf;
    if e.Some? {
      SameLength(s[pos + 1..]);
      assert DecodesAt(s, pos, Decoded(e.value, hrp, values[..|values| - CHECKSUM_SIZE]));
    } else {
      forall d ensures !DecodesTo(s, limit, d) {
        forall q: nat ensures !DecodesAt(s, q, d) {
          assert LastSeparator(s, q) ==> q == pos;
        }
      }
    }
  }

  lemma SameLength(s: string)
    requires AllSymbols(s)
    ensures |SymbolsOf(s)| == |s|
  {
  }
}
