/** Base58 strings of bytes. */
module Base58 {
  import opened Powers
  import opened PowerBounds
  import opened Digits
  import opened Recoding

  /** The digits in ascending order: letters and numerals, without those that look alike. */
  const ALPHABET: string := "123456789" + "ABCDEFGH" + "JKLMN" + "PQRSTUVWXYZ" + "abcdefghijk" + "mnopqrstuvwxyz"

  /** The digit of a character by the lookup table: -1 for those that are not in the alphabet. */
  function DigitOf(c: char): int {
    if '1' <= c <= '9' then c as int - '1' as int
    else if 'A' <= c <= 'H' then c as int - 'A' as int + 9
    else if 'J' <= c <= 'N' then c as int - 'J' as int + 17
    else if 'P' <= c <= 'Z' then c as int - 'P' as int + 22
    else if 'a' <= c <= 'k' then c as int - 'a' as int + 33
    else if 'm' <= c <= 'z' then c as int - 'm' as int + 44
    else -1
  }

  predicate IsSpace(c: char) {
    c == ' ' || c == '\U{0C}' || c == '\n' || c == '\r' || c == '\t' || c == '\U{0B}'
  }

  /** The lookup table agrees with the alphabet. */
  lemma TableOfAlphabet(d: nat)
    requires d < 58
    ensures DigitOf(ALPHABET[d]) == d && !IsSpace(ALPHABET[d]) && ALPHABET[d] != '\0'
  {
    if d < 17 {
      AlphabetStart(d);
    } else if d < 33 {
      AlphabetMiddle(d);
    } else {
      AlphabetEnd(d);
    }
  }

  lemma AlphabetStart(d: nat)
    requires d < 17
    ensures DigitOf(ALPHABET[d]) == d
  {
    assert ALPHABET[d] == if d < 9 then "123456789"[d] else "ABCDEFGH"[d - 9];
  }

  lemma AlphabetMiddle(d: nat)
    requires 17 <= d < 33
    ensures DigitOf(ALPHABET[d]) == d
  {
    assert ALPHABET[d] == if d < 22 then "JKLMN"[d - 17] else "PQRSTUVWXYZ"[d - 22];
  }

  lemma AlphabetEnd(d: nat)
    requires 33 <= d < 58
    ensures DigitOf(ALPHABET[d]) == d
  {
    assert ALPHABET[d] == if d < 44 then "abcdefghijk"[d - 33] else "mnopqrstuvwxyz"[d - 44];
  }

  lemma TableInjective(a: char, b: char)
    requires DigitOf(a) == DigitOf(b) != -1
    ensures a == b
  {
    assert a as int == b as int;
  }

  lemma AlphabetOfTable(c: char)
    requires DigitOf(c) != -1
    ensures 0 <= DigitOf(c) < 58 && ALPHABET[DigitOf(c)] == c
  {
    TableOfAlphabet(DigitOf(c));
    TableInjective(ALPHABET[DigitOf(c)], c);
  }

  predicate AllDigits(s: string) {
    forall i | 0 <= i < |s| :: DigitOf(s[i]) != -1
  }

  /** The characters of digits. */
  function Characters(ds: seq<nat>): (s: string)
    requires DigitsOk(ds, 58)
    ensures |s| == |ds|
  {
    seq(|ds|, i requires 0 <= i < |ds| => ALPHABET[ds[i]])
  }

  function Values(s: string): (ds: seq<nat>)
    requires AllDigits(s)
    ensures |ds| == |s|
  {
    seq(|s|, i requires 0 <= i < |s| => if DigitOf(s[i]) >= 0 then DigitOf(s[i]) else 0)
  }

  /** Characters stand for their digits, both ways. */
  lemma ValuesOfCharacters(ds: seq<nat>)
    requires DigitsOk(ds, 58)
    ensures AllDigits(Characters(ds)) && Values(Characters(ds)) == ds
    ensures forall i | 0 <= i < |ds| :: !IsSpace(Characters(ds)[i]) && Characters(ds)[i] != '\0'
  {
    forall i | 0 <= i < |ds| ensures DigitOf(Characters(ds)[i]) == ds[i] && !IsSpace(Characters(ds)[i]) && Characters(ds)[i] != '\0' {
      TableOfAlphabet(ds[i]);
    }
  }

  lemma CharactersOfValues(s: string)
    requires AllDigits(s)
    ensures DigitsOk(Values(s), 58) && Characters(Values(s)) == s
  {
    forall i | 0 <= i < |s| ensures 0 <= DigitOf(s[i]) < 58 && ALPHABET[DigitOf(s[i])] == s[i] {
      AlphabetOfTable(s[i]);
    }
  }

  // ----- what the two directions compute

  ghost predicate IsBytes(b: seq<nat>) {
    DigitsOk(b, 256)
  }

  /** Bytes as text: a '1' for each leading zero byte, then the number in base 58. */
  ghost function Encoded(b: seq<nat>): string
    requires IsBytes(b)
  {
    RecodeTwice(b, 256, 58);
    Characters(Recode(b, 256, 58))
  }

  ghost function Decoded(s: string): seq<nat>
    requires AllDigits(s)
  {
    Recode(Values(s), 58, 256)
  }

  /** Decoding what was encoded gives the bytes back. */
  lemma EncodedDecodes(b: seq<nat>)
    requires IsBytes(b)
    ensures AllDigits(Encoded(b)) && Decoded(Encoded(b)) == b
    ensures forall i | 0 <= i < |Encoded(b)| :: !IsSpace(Encoded(b)[i]) && Encoded(b)[i] != '\0'
  {
    hide Recode;
    RecodeTwice(b, 256, 58);
    ValuesOfCharacters(Recode(b, 256, 58));
  }

  /** Encoding what was decoded gives the text back. */
  lemma DecodedEncodes(s: string)
    requires AllDigits(s)
    ensures IsBytes(Decoded(s)) && Encoded(Decoded(s)) == s
  {
    hide Recode;
    CharactersOfValues(s);
    RecodeTwice(Values(s), 58, 256);
  }

  // ----- encoding

  /** Encode bytes. The buffer is never too small, so nothing is left to carry. */
  method EncodeBase58(input: seq<nat>) returns (str: string)
    requires IsBytes(input)
    ensures str == Encoded(input)
  {
    hide Recoded, Recode, Holds, Pow;
    var zeroes := 0;
    while zeroes < |input| && input[zeroes] == 0
      invariant zeroes <= |input| && forall i | 0 <= i < zeroes :: input[i] == 0
    {
      zeroes := zeroes + 1;
    }
    var size := (|input| - zeroes) * 138 / 100 + 1;
    var b58 := new nat[size](_ => 0);
    var length, p := 0, zeroes;
    ghost var n := 0;
    StartRecoding(input[..p], zeroes, b58[..], 256, 58);
    RoomForDigits(|input| - zeroes);
    while p < |input|
      invariant zeroes <= p <= |input| && b58.Length == size
      invariant Recoded(input[..p], zeroes, n, b58[..], length, 256, 58)
    {
      ghost var was, shorter := b58[..], length;
      NextFits(input[..p], zeroes, n, was, length, 256, 58, input[p], |input| - zeroes);
      HeldPart(input[..p], zeroes, n, was, length, 256, 58);
      length := MulAdd(b58, length, 256, input[p], 58, n);
      RecodeMore(input[..p], zeroes, n, was, shorter, b58[..], length, 256, 58, input[p]);
      n := n * 256 + input[p];
      assert input[..p + 1] == input[..p] + [input[p]];
      p := p + 1;
    }
    assert input[..p] == input;
    str := Translate(b58, zeroes, length, input, n);
  }

  lemma HeldPart(s: seq<nat>, z: nat, n: nat, buffer: seq<nat>, length: nat, base: nat, to: nat)
    requires Recoded(s, z, n, buffer, length, base, to)
    ensures Holds(buffer, length, n, to)
  {
  }

  /** The text of the digits in the buffer, after one '1' for each leading zero byte. */
  method Translate(b58: array<nat>, zeroes: nat, length: nat, ghost input: seq<nat>, ghost n: nat) returns (str: string)
    requires IsBytes(input) && Recoded(input, zeroes, n, b58[..], length, 256, 58)
    ensures str == Encoded(input)
  {
    hide Recoded, Recode, Reversed, DigitsOk, Characters;
    RecodeTwice(input, 256, 58);
    FinishRecoding(input, zeroes, n, b58[..], length, 256, 58);
    ghost var digits := Recode(input, 256, 58);
    var it := length;
    while it > 0 && b58[it - 1] == 0
      invariant 0 <= it <= length <= b58.Length && (it < length ==> b58[length - 1] == 0)
      decreases it
    {
      it := it - 1;
    }
    TopOfBuffer(input, zeroes, n, b58[..], length);
    str := seq(zeroes, _ => '1');
    StartText(digits, zeroes, b58[..length]);
    while it > 0
      invariant it <= length && TextSoFar(digits, str, zeroes + length - it)
      decreases it
    {
      it := it - 1;
      NextText(digits, str, zeroes, b58[..length], it);
      str := str + [ALPHABET[b58[it]]];
    }
    FinishText(digits, str);
  }

  lemma TopOfBuffer(input: seq<nat>, zeroes: nat, n: nat, buffer: seq<nat>, length: nat)
    requires Recoded(input, zeroes, n, buffer, length, 256, 58)
    ensures length <= |buffer| && (length > 0 ==> buffer[length - 1] != 0)
  {
    hide ToDigits, Leading, Big, Pow;
    ToDigitsIs(n, 58);
    assert length > 0 ==> buffer[length - 1] == buffer[..length][length - 1];
  }

  ghost predicate TextSoFar(digits: seq<nat>, str: string, k: nat) {
    && DigitsOk(digits, 58) && k == |str| <= |digits|
    && forall i | 0 <= i < k :: str[i] == ALPHABET[digits[i]]
  }

  lemma StartText(digits: seq<nat>, zeroes: nat, held: seq<nat>)
    requires DigitsOk(digits, 58) && digits == Zeros(zeroes) + Reversed(held)
    ensures TextSoFar(digits, seq(zeroes, _ => '1'), zeroes)
  {
    assert ALPHABET[0] == '1';
  }

  lemma NextText(digits: seq<nat>, str: string, zeroes: nat, held: seq<nat>, it: nat)
    requires digits == Zeros(zeroes) + Reversed(held) && it < |held|
    requires TextSoFar(digits, str, zeroes + |held| - it - 1)
    ensures held[it] < 58 && TextSoFar(digits, str + [ALPHABET[held[it]]], zeroes + |held| - it)
  {
    var k := zeroes + |held| - it - 1;
    assert digits[k] == Reversed(held)[k - zeroes] == held[it];
  }

  lemma FinishText(digits: seq<nat>, str: string)
    requires TextSoFar(digits, str, |digits|)
    ensures str == Characters(digits)
  {
  }

  // ----- decoding

  predicate AllSpaces(s: string) {
    forall i | 0 <= i < |s| :: IsSpace(s[i])
  }

  ghost predicate PaddedAt(str: string, text: string, i: nat) {
    && i + |text| <= |str| && str[i..i + |text|] == text && AllSpaces(str[..i]) && AllSpaces(str[i + |text|..])
  }

  /** The string is the text with nothing but spaces around it. */
  ghost predicate Padded(str: string, text: string) {
    exists i: nat :: PaddedAt(str, text, i)
  }

  ghost predicate Within(b: seq<nat>, maxRetLen: int) {
    IsBytes(b) && (b == [] || |b| <= maxRetLen)
  }

  /** The string is not the text of any bytes within the limit. */
  ghost predicate Undecodable(str: string, maxRetLen: int) {
    forall b | Within(b, maxRetLen) :: !Padded(str, Encoded(b))
  }

  /** A padded text covers every character that is not a space. */
  lemma InText(str: string, text: string, i: nat, p: nat)
    requires PaddedAt(str, text, i) && p < |str| && !IsSpace(str[p])
    ensures i <= p < i + |text| && text[p - i] == str[p]
  {
    assert i <= p < i + |text| ==> str[i..i + |text|][p - i] == str[p];
  }

  lemma StrayCharacter(str: string, p: nat, maxRetLen: int)
    requires p < |str| && !IsSpace(str[p]) && DigitOf(str[p]) == -1
    ensures Undecodable(str, maxRetLen)
  {
    hide Encoded, PaddedAt, Recode;
    forall b | Within(b, maxRetLen) ensures !Padded(str, Encoded(b)) {
      if Padded(str, Encoded(b)) {
        var i: nat :| PaddedAt(str, Encoded(b), i);
        EncodedDecodes(b);
        InText(str, Encoded(b), i, p);
        assert false;
      }
    }
  }

  lemma SpaceInside(str: string, a: nat, e: nat, q: nat, maxRetLen: int)
    requires a < e < q < |str| && !IsSpace(str[a]) && IsSpace(str[e]) && !IsSpace(str[q])
    ensures Undecodable(str, maxRetLen)
  {
    hide Encoded, Recode;
    forall b | Within(b, maxRetLen) ensures !Padded(str, Encoded(b)) {
      if Padded(str, Encoded(b)) {
        var text := Encoded(b);
        var i: nat :| PaddedAt(str, text, i);
        EncodedDecodes(b);
        InText(str, text, i, a);
        InText(str, text, i, q);
        assert false;
      }
    }
  }

  /** A text whose first digits already give too many bytes. */
  lemma TooLong(str: string, a: nat, k: nat, maxRetLen: int)
    requires 0 < k && a + k <= |str| && AllSpaces(str[..a]) && AllDigits(str[a..a + k])
    requires |Decoded(str[a..a + k])| > maxRetLen
    ensures Undecodable(str, maxRetLen)
  {
    hide Encoded, Recode;
    forall b | Within(b, maxRetLen) ensures !Padded(str, Encoded(b)) {
      if Padded(str, Encoded(b)) {
        var i: nat :| PaddedAt(str, Encoded(b), i);
        LongerText(str, a, k, b, i);
        assert false;
      }
    }
  }

  lemma LongerText(str: string, a: nat, k: nat, b: seq<nat>, i: nat)
    requires 0 < k && a + k <= |str| && AllSpaces(str[..a]) && AllDigits(str[a..a + k])
    requires IsBytes(b) && PaddedAt(str, Encoded(b), i)
    ensures b != [] && |Decoded(str[a..a + k])| <= |b|
  {
    hide Encoded, Recode;
    var text, head := Encoded(b), str[a..a + k];
    EncodedDecodes(b);
    assert head[0] == str[a] && head[k - 1] == str[a + k - 1];
    InText(str, text, i, a);
    InText(str, text, i, a + k - 1);
    assert text[0] == str[i];
    assert i == a;
    assert head == text[..k];
    assert Values(head) == Values(text)[..k];
    RecodeGrows(Values(text), k, 58, 256);
    if b == [] {
      NothingEncoded();
    }
  }

  lemma NothingEncoded()
    ensures Encoded([]) == ""
  {
    assert Reversed([]) == [];
  }

  method SkipSpaces(str: string, start: nat) returns (p: nat)
    requires start <= |str|
    ensures start <= p <= |str| && AllSpaces(str[start..p]) && (p < |str| ==> !IsSpace(str[p]))
  {
    p := start;
    while p < |str| && IsSpace(str[p])
      invariant start <= p <= |str| && AllSpaces(str[start..p])
    {
      assert str[start..p + 1] == str[start..p] + [str[p]];
      p := p + 1;
    }
  }

  /** The zero bytes, then the bytes of the buffer. */
  method Collect(b256: array<nat>, zeroes: nat, length: nat) returns (vch: seq<nat>)
    requires length <= b256.Length
    ensures vch == Zeros(zeroes) + Reversed(b256[..length])
  {
    vch := seq(zeroes, _ => 0);
    var it := length;
    while it > 0
      invariant 0 <= it <= length && |vch| == zeroes + length - it
      invariant forall i | 0 <= i < zeroes :: vch[i] == 0
      invariant forall i | zeroes <= i < |vch| :: vch[i] == b256[length - 1 - (i - zeroes)]
      decreases it
    {
      it := it - 1;
      vch := vch + [b256[it]];
    }
  }

  lemma ValuesMore(str: string, a: nat, p: nat)
    requires a <= p < |str| && AllDigits(str[a..p]) && DigitOf(str[p]) != -1
    ensures 0 <= DigitOf(str[p]) < 58 && (str[p] != '1' ==> DigitOf(str[p]) != 0) && AllDigits(str[a..p + 1])
    ensures Values(str[a..p + 1]) == Values(str[a..p]) + [DigitOf(str[p])]
  {
    assert str[a..p + 1] == str[a..p] + [str[p]];
    if DigitOf(str[p]) == 0 {
      TableInjective(str[p], '1');
    }
  }

  lemma Ones(str: string, a: nat, p: nat)
    requires a <= p <= |str| && forall i | a <= i < p :: str[i] == '1'
    ensures AllDigits(str[a..p]) && Values(str[a..p]) == Zeros(p - a) && |Decoded(str[a..p])| == p - a
  {
    hide Leading, Big, ToDigits;
    var z := Zeros(p - a);
    assert Values(str[a..p]) == z;
    LeadingIs(z, p - a);
    BigRest(z, p - a, 58);
    assert z[p - a..] == [];
    assert Big([], 58) == 0 && ToDigits(0, 256) == [] by {
      NoDigits();
    }
  }

  lemma NoDigits()
    ensures Big([], 58) == 0 && ToDigits(0, 256) == []
  {
    assert Reversed([]) == [];
  }

  /** Read the digits after the leading '1's. The buffer is never too small, so nothing is left to carry. */
  method ReadDigits(str: string, maxRetLen: int, a: nat, zeroes: nat) returns (ok: bool, e: nat, vch: seq<nat>)
    requires a + zeroes <= |str| && AllSpaces(str[..a]) && (forall i | a <= i < a + zeroes :: str[i] == '1')
    requires (a + zeroes < |str| ==> str[a + zeroes] != '1') && (zeroes > 0 ==> zeroes <= maxRetLen)
    ensures ok ==> a <= e <= |str| && AllDigits(str[a..e]) && (e < |str| ==> IsSpace(str[e]))
    ensures ok ==> vch == Decoded(str[a..e]) && (e == a || |vch| <= maxRetLen)
    ensures !ok ==> Undecodable(str, maxRetLen)
  {
    hide Recoded, Recode, Holds, Pow, Undecodable, DigitOf, Values, IsSpace, Reversed;
    var p := a + zeroes;
    var size := (|str| - p) * 733 / 1000 + 1;
    var b256 := new nat[size](_ => 0);
    var length: nat := 0;
    ghost var n: nat := 0;
    ghost var total := |str| - p;
    Ones(str, a, p);
    StartRecoding(Values(str[a..p]), zeroes, b256[..], 58, 256);
    RoomForBytes(total);
    while p < |str| && !IsSpace(str[p])
      invariant a + zeroes <= p <= |str| && b256.Length == size && AllDigits(str[a..p])
      invariant Recoded(Values(str[a..p]), zeroes, n, b256[..], length, 58, 256)
      invariant p == a || length + zeroes <= maxRetLen
    {
      var digit := DigitOf(str[p]);
      if digit == -1 {
        StrayCharacter(str, p, maxRetLen);
        return false, p, [];
      }
      ValuesMore(str, a, p);
      ghost var was, shorter, read := b256[..], length, Values(str[a..p]);
      NextFits(read, zeroes, n, was, length, 58, 256, digit, total);
      HeldPart(read, zeroes, n, was, length, 58, 256);
      length := MulAdd(b256, length, 58, digit, 256, n);
      RecodeMore(read, zeroes, n, was, shorter, b256[..], length, 58, 256, digit);
      n := n * 58 + digit;
      FinishRecoding(read + [digit], zeroes, n, b256[..], length, 58, 256);
      if length + zeroes > maxRetLen {
        TooLong(str, a, p + 1 - a, maxRetLen);
        return false, p, [];
      }
      p := p + 1;
    }
    FinishRecoding(Values(str[a..p]), zeroes, n, b256[..], length, 58, 256);
    vch := Collect(b256, zeroes, length);
    return true, p, vch;
  }

  /** Decode a string: the exact inverse of encoding, but for spaces around the text and bytes beyond the limit. */
  method DecodeBase58(str: string, maxRetLen: int) returns (ok: bool, vch: seq<nat>)
    ensures ok ==> Within(vch, maxRetLen) && Padded(str, Encoded(vch))
    ensures !ok ==> Undecodable(str, maxRetLen)
  {
    hide Encoded, Decoded, Undecodable, Padded, Recode;
    if '\0' in str {
      ghost var at :| 0 <= at < |str| && str[at] == '\0';
      StrayCharacter(str, at, maxRetLen);
      return false, [];
    }
    var a := SkipSpaces(str, 0);
    assert AllSpaces(str[..a]);
    var zeroes: nat, p := 0, a;
    while p < |str| && str[p] == '1'
      invariant a <= p <= |str| && p == a + zeroes && (zeroes > 0 ==> zeroes <= maxRetLen)
      invariant forall i | a <= i < p :: str[i] == '1'
    {
      zeroes := zeroes + 1;
      if zeroes > maxRetLen {
        Ones(str, a, p + 1);
        TooLong(str, a, p + 1 - a, maxRetLen);
        return false, [];
      }
      p := p + 1;
    }
    var e: nat;
    ok, e, vch := ReadDigits(str, maxRetLen, a, zeroes);
    if !ok {
      return false, [];
    }
    var q := SkipSpaces(str, e);
    if q != |str| {
      SpaceInside(str, a, e, q, maxRetLen);
      return false, [];
    }
    assert str[e..] == str[e..q];
    Accepted(str, a, e, maxRetLen);
  }

  lemma Accepted(str: string, a: nat, e: nat, maxRetLen: int)
    requires a <= e <= |str| && AllSpaces(str[..a]) && AllDigits(str[a..e]) && AllSpaces(str[e..])
    requires e == a || |Decoded(str[a..e])| <= maxRetLen
    ensures Within(Decoded(str[a..e]), maxRetLen) && Padded(str, Encoded(Decoded(str[a..e])))
  {
    hide Encoded, Decoded, Recode;
    DecodedEncodes(str[a..e]);
    assert PaddedAt(str, str[a..e], a);
    if e == a {
      Ones(str, a, e);
    }
  }
}
