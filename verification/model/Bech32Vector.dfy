/** A test vector of BIP 350 that uses every symbol, and so ties down the alphabet and the constant. */
module Bech32Vectors {
  import opened Bech32Checksums
  import opened Bech32s

  const TAIL := "l7aum6echk45nj3s0wdvt2fg8x9yrzpqzd3ryx"
  const VECTOR := "abcdef1" + TAIL

  // The prefix as it enters the checksum, the data and the checksum, in parts.
  const HIGH: seq<Word> := [3, 3, 3, 3, 3, 3, 0]
  const LOW: seq<Word> := [1, 2, 3, 4, 5, 6]
  const FIRST: seq<Word> := [31, 30, 29, 28, 27, 26, 25, 24]
  const SECOND: seq<Word> := [23, 22, 21, 20, 19, 18, 17, 16]
  const THIRD: seq<Word> := [15, 14, 13, 12, 11, 10, 9, 8]
  const FOURTH: seq<Word> := [7, 6, 5, 4, 3, 2, 1, 0]
  const CHECK: seq<Word> := [2, 13, 17, 3, 4, 6]

  /** All symbols in descending order. */
  const DATA: seq<Word> := FIRST + SECOND + THIRD + FOURTH

  lemma AbsorbThis(vs: seq<Word>, i: nat, v: Word, c: Word, next: Word)
    requires i < |vs| && vs[i] == v && Step(c, v) == next
    ensures Absorbed(c, vs[i..]) == Absorbed(next, vs[i + 1..])
  {
    AbsorbNext(vs, i, c, next);
  }

  lemma AbsorbHigh()
    ensures Absorbed(0x1, HIGH) == 0x4dcbcd9
  {
    hide Absorbed;
    AbsorbThis(HIGH, 0, 3, 0x1, 0x23);
    AbsorbThis(HIGH, 1, 3, 0x23, 0x463);
    AbsorbThis(HIGH, 2, 3, 0x463, 0x8c63);
    AbsorbThis(HIGH, 3, 3, 0x8c63, 0x118c63);
    AbsorbThis(HIGH, 4, 3, 0x118c63, 0x2318c63);
    AbsorbThis(HIGH, 5, 3, 0x2318c63, 0x3d5bdbd1);
    AbsorbThis(HIGH, 6, 0, 0x3d5bdbd1, 0x4dcbcd9);
    NoneAbsorbed(0x4dcbcd9, HIGH);
  }

  lemma AbsorbLow()
    ensures Absorbed(0x4dcbcd9, LOW) == 0x3be80e6a
  {
    hide Absorbed;
    AbsorbThis(LOW, 0, 1, 0x4dcbcd9, 0x3dc7154c);
    AbsorbThis(LOW, 1, 2, 0x3dc7154c, 0x17456f7b);
    AbsorbThis(LOW, 2, 3, 0x17456f7b, 0x8d50561);
    AbsorbThis(LOW, 3, 4, 0x8d50561, 0x401b5de);
    AbsorbThis(LOW, 4, 5, 0x401b5de, 0x266635a8);
    AbsorbThis(LOW, 5, 6, 0x266635a8, 0x3be80e6a);
    NoneAbsorbed(0x3be80e6a, LOW);
  }

  lemma AbsorbFirst()
    ensures Absorbed(0x3be80e6a, FIRST) == 0x387a7c0c
  {
    hide Absorbed;
    AbsorbThis(FIRST, 0, 31, 0x3be80e6a, 0xf9cd279);
    AbsorbThis(FIRST, 1, 30, 0xf9cd279, 0x30018f1b);
    AbsorbThis(FIRST, 2, 29, 0x30018f1b, 0x1767b213);
    AbsorbThis(FIRST, 3, 28, 0x1767b213, 0xc8ea87e);
    AbsorbThis(FIRST, 4, 27, 0xc8ea87e, 0x2924984c);
    AbsorbThis(FIRST, 5, 26, 0x2924984c, 0x102672d3);
    AbsorbThis(FIRST, 6, 25, 0x102672d3, 0x398c69a4);
    AbsorbThis(FIRST, 7, 24, 0x398c69a4, 0x387a7c0c);
    NoneAbsorbed(0x387a7c0c, FIRST);
  }

  lemma AbsorbSecond()
    ensures Absorbed(0x387a7c0c, SECOND) == 0x351f9f3
  {
    hide Absorbed;
    AbsorbThis(SECOND, 0, 23, 0x387a7c0c, 0x6b8c903);
    AbsorbThis(SECOND, 1, 22, 0x6b8c903, 0xa23f9a9);
    AbsorbThis(SECOND, 2, 21, 0xa23f9a9, 0x21b47b7d);
    AbsorbThis(SECOND, 3, 20, 0x21b47b7d, 0x1c9b0d07);
    AbsorbThis(SECOND, 4, 19, 0x1c9b0d07, 0x16d204b9);
    AbsorbThis(SECOND, 5, 18, 0x16d204b9, 0x3a387d30);
    AbsorbThis(SECOND, 6, 17, 0x3a387d30, 0x3592b937);
    AbsorbThis(SECOND, 7, 16, 0x3592b937, 0x351f9f3);
    NoneAbsorbed(0x351f9f3, SECOND);
  }

  lemma AbsorbThird()
    ensures Absorbed(0x351f9f3, THIRD) == 0x160e43ba
  {
    hide Absorbed;
    AbsorbThis(THIRD, 0, 15, 0x351f9f3, 0x115569dd);
    AbsorbThis(THIRD, 1, 14, 0x115569dd, 0x17ef0873);
    AbsorbThis(THIRD, 2, 13, 0x17ef0873, 0x1d99e46f);
    AbsorbThis(THIRD, 3, 12, 0x1d99e46f, 0x368f29a6);
    AbsorbThis(THIRD, 4, 11, 0x368f29a6, 0x1b89bc7a);
    AbsorbThis(THIRD, 5, 10, 0x1b89bc7a, 0x29bef2df);
    AbsorbThis(THIRD, 6, 9, 0x29bef2df, 0x36b20a0);
    AbsorbThis(THIRD, 7, 8, 0x36b20a0, 0x160e43ba);
    NoneAbsorbed(0x160e43ba, THIRD);
  }

  lemma AbsorbFourth()
    ensures Absorbed(0x160e43ba, FOURTH) == 0xcd42356
  {
    hide Absorbed;
    AbsorbThis(FOURTH, 0, 7, 0x160e43ba, 0x21b09d45);
    AbsorbThis(FOURTH, 1, 6, 0x21b09d45, 0x1c07ca15);
    AbsorbThis(FOURTH, 2, 5, 0x1c07ca15, 0x54ae6ef);
    AbsorbThis(FOURTH, 3, 4, 0x54ae6ef, 0xf0c5389);
    AbsorbThis(FOURTH, 4, 3, 0xf0c5389, 0x2211b106);
    AbsorbThis(FOURTH, 5, 2, 0x2211b106, 0x134815c3);
    AbsorbThis(FOURTH, 6, 1, 0x134815c3, 0x2f2adc0e);
    AbsorbThis(FOURTH, 7, 0, 0x2f2adc0e, 0xcd42356);
    NoneAbsorbed(0xcd42356, FOURTH);
  }

  lemma AbsorbCheck()
    ensures Absorbed(0xcd42356, CHECK) == 0x2bc830a3
  {
    hide Absorbed;
    AbsorbThis(CHECK, 0, 2, 0xcd42356, 0x2275fd55);
    AbsorbThis(CHECK, 1, 13, 0x2275fd55, 0x1fc19fac);
    AbsorbThis(CHECK, 2, 17, 0x1fc19fac, 0x6ea0669);
    AbsorbThis(CHECK, 3, 3, 0x6ea0669, 0x7a14fc);
    AbsorbThis(CHECK, 4, 4, 0x7a14fc, 0xf429f84);
    AbsorbThis(CHECK, 5, 6, 0xf429f84, 0x2bc830a3);
    NoneAbsorbed(0x2bc830a3, CHECK);
  }

  lemma VectorRemainder()
    ensures PolyMod(HIGH + LOW + (DATA + CHECK)) == 0x2bc830a3
  {
    hide *;
    DataFacts();
    AbsorbAll(HIGH + LOW, DATA + CHECK);
    AbsorbHigh();
    AbsorbLow();
    AbsorbFirst();
    AbsorbSecond();
    AbsorbThird();
    AbsorbFourth();
    AbsorbCheck();
    AbsorbedConcat(1, HIGH, LOW);
    AbsorbedConcat(0x3be80e6a, DATA, CHECK);
    AbsorbedConcat(0x3be80e6a, FIRST + SECOND + THIRD, FOURTH);
    AbsorbedConcat(0x3be80e6a, FIRST + SECOND, THIRD);
    AbsorbedConcat(0x3be80e6a, FIRST, SECOND);
  }

  lemma DataFacts()
    ensures DATA == FIRST + SECOND + THIRD + FOURTH && |DATA| == 32 && |CHECK| == CHECKSUM_SIZE == 6
  {
  }

  lemma AbsorbAll(u: seq<Word>, v: seq<Word>)
    ensures PolyMod(u + v) == Absorbed(Absorbed(1, u), v)
  {
    AbsorbedConcat(1, u, v);
  }

  predicate ExpandsTo(c: char, high: Word, low: Word) {
    ((c as int) / 32) as Word == high && ((c as int) % 32) as Word == low
  }

  lemma ExpandedIs(hrp: string, high: seq<Word>, low: seq<Word>)
    requires |high| == |low| == |hrp| && forall i | 0 <= i < |hrp| :: ExpandsTo(hrp[i], high[i], low[i])
    ensures Expanded(hrp) == high + [0] + low
  {
  }

  lemma Letter(c: char, high: int, low: int)
    requires c as int == 32 * high + low && 0 <= high < 8 && 0 <= low < 32
    ensures ExpandsTo(c, high as Word, low as Word)
  {
    assert (c as int) / 32 == high && (c as int) % 32 == low;
  }

  lemma VectorLetters()
    ensures ExpandsTo('a', 3, 1) && ExpandsTo('b', 3, 2) && ExpandsTo('c', 3, 3)
    ensures ExpandsTo('d', 3, 4) && ExpandsTo('e', 3, 5) && ExpandsTo('f', 3, 6)
  {
    hide ExpandsTo;
    Letter('a', 3, 1);
    Letter('b', 3, 2);
    Letter('c', 3, 3);
    Letter('d', 3, 4);
    Letter('e', 3, 5);
    Letter('f', 3, 6);
  }

  lemma VectorHrp()
    ensures Expanded("abcdef") == HIGH + LOW
  {
    hide Expanded, ExpandsTo;
    VectorLetters();
    ExpandedIs("abcdef", [3, 3, 3, 3, 3, 3], LOW);
  }

  lemma FirstChars()
    ensures Symbols(FIRST) && Chars(FIRST) == "l7aum6ec"
  {
    CharsAre(FIRST, "l7aum6ec");
  }

  lemma SecondChars()
    ensures Symbols(SECOND) && Chars(SECOND) == "hk45nj3s"
  {
    CharsAre(SECOND, "hk45nj3s");
  }

  lemma ThirdChars()
    ensures Symbols(THIRD) && Chars(THIRD) == "0wdvt2fg"
  {
    CharsAre(THIRD, "0wdvt2fg");
  }

  lemma FourthChars()
    ensures Symbols(FOURTH) && Chars(FOURTH) == "8x9yrzpq"
  {
    CharsAre(FOURTH, "8x9yrzpq");
  }

  lemma CheckChars()
    ensures Symbols(CHECK) && Chars(CHECK) == "zd3ryx"
  {
    CharsAre(CHECK, "zd3ryx");
  }

  lemma CharsConcat(u: seq<Word>, v: seq<Word>)
    requires Symbols(u) && Symbols(v)
    ensures Symbols(u + v) && Chars(u + v) == Chars(u) + Chars(v)
  {
    hide CharOf;
    assert Symbols(u + v) by {
      hide Chars;
      forall i | 0 <= i < |u + v| ensures (u + v)[i] < 32 {
        assert i >= |u| ==> (u + v)[i] == v[i - |u|];
      }
    }
  }

  lemma TailParts()
    ensures TAIL == "l7aum6ec" + "hk45nj3s" + "0wdvt2fg" + "8x9yrzpq" + "zd3ryx"
  {
  }

  lemma VectorChars()
    ensures Symbols(DATA + CHECK) && Chars(DATA + CHECK) == TAIL
  {
    hide *;
    DataFacts();
    TailParts();
    FirstChars();
    SecondChars();
    ThirdChars();
    FourthChars();
    CheckChars();
    CharsConcat(FIRST, SECOND);
    CharsConcat(FIRST + SECOND, THIRD);
    CharsConcat(FIRST + SECOND + THIRD, FOURTH);
    CharsConcat(DATA, CHECK);
  }

  lemma VectorParts()
    ensures VECTOR == "abcdef" + [SEPARATOR] + TAIL && PlainHrp("abcdef") && EncodingConstant(Bech32m) == 0x2bc830a3
  {
    hide TAIL;
    assert "abcdef1" == "abcdef" + [SEPARATOR];
  }

  /** The vector is the Bech32m encoding of all symbols in descending order, and decodes to them. */
  lemma VectorDecodes()
    ensures Symbols(DATA) && Encoded(Bech32m, "abcdef", DATA) == VECTOR && DecodesTo(VECTOR, 90, Decoded(Bech32m, "abcdef", DATA))
  {
    hide *;
    DataFacts();
    VectorRemainder();
    VectorHrp();
    VectorChars();
    VectorParts();
    Created(Bech32m, "abcdef", DATA, CHECK, HIGH + LOW + (DATA + CHECK), TAIL);
    EncodedDecodes(Bech32m, "abcdef", DATA, 90);
  }
}
