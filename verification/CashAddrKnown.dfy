/** The alphabet, letter by letter, and a published address: what the checksum, the alphabet and the expansion
    of the prefix have to agree on. */
module CashAddrKnown {
  import opened CashAddrCode
  import opened CashAddr
  import opened CashAddrShort
  import opened Options

  const CHARSET := "qpzry9x8gf2tvdw0s3jn54khce6mua7l"

  lemma LowerHalf(c: Symbol)
    requires c < 16
    ensures c as int < 32 && CharOf(c) == CHARSET[c as int]
  {
  }

  lemma UpperHalf(c: Symbol)
    requires 16 <= c < 32
    ensures c as int < 32 && CharOf(c) == CHARSET[c as int]
  {
  }

  /** Symbol number `c` is written as letter number `c`, and read back from it. */
  lemma Alphabet(c: Symbol)
    requires c < 32
    ensures c as int < 32 && CharOf(c) == CHARSET[c as int]
    ensures SymbolOf(CHARSET[c as int]) == Some(c)
  {
    hide CharLow, CharHigh, SymbolOf;
    if c < 16 { LowerHalf(c); } else { UpperHalf(c); }
    CharSymbol(c);
  }

  /** Of a letter of the prefix the checksum sees the place in the alphabet, in either case. */
  lemma PrefixSymbol(n: nat)
    requires n < 32
    ensures LowBits(n) as int == n
  {
  }

  // ---------------------------------------------------------------- an address with an empty payload

  lemma Steps0()
    ensures Step(ONE, 16) == 0x30 && Step(0x30, 18) == 0x612
  {
  }

  lemma Steps2()
    ensures Step(0x612, 5) == 0xc245 && Step(0xc245, 6) == 0x1848a6
  {
  }

  lemma Steps4()
    ensures Step(0x1848a6, 9) == 0x30914c9 && Step(0x30914c9, 24) == 0x61229938
  {
  }

  lemma Steps6()
    ensures Step(0x61229938, 0) == 0xc24532700
  {
  }

  lemma Part0()
    ensures Fold(ONE, [16, 18, 5, 6, 9, 24, 0]) == 0xc24532700
  {
    hide Step, Fold;
    Steps0();
    Steps2();
    Steps4();
    Steps6();
    FoldNext(ONE, [16, 18, 5, 6, 9, 24, 0]);
    assert [16, 18, 5, 6, 9, 24, 0][1..] == [18, 5, 6, 9, 24, 0];
    FoldNext(0x30, [18, 5, 6, 9, 24, 0]);
    assert [18, 5, 6, 9, 24, 0][1..] == [5, 6, 9, 24, 0];
    FoldNext(0x612, [5, 6, 9, 24, 0]);
    assert [5, 6, 9, 24, 0][1..] == [6, 9, 24, 0];
    FoldNext(0xc245, [6, 9, 24, 0]);
    assert [6, 9, 24, 0][1..] == [9, 24, 0];
    FoldNext(0x1848a6, [9, 24, 0]);
    assert [9, 24, 0][1..] == [24, 0];
    FoldNext(0x30914c9, [24, 0]);
    assert [24, 0][1..] == [0];
    FoldNext(0x61229938, [0]);
    AllFolded(0xc24532700, 0);
  }

  lemma Steps7()
    ensures Step(0xc24532700, 6) == 0x1c78d86e67 && Step(0x1c78d86e67, 26) == 0x6e5edcdb79
  {
  }

  lemma Steps9()
    ensures Step(0x6e5edcdb79, 21) == 0xe39d3b038 && Step(0xe39d3b038, 19) == 0x5fc8ca8972
  {
  }

  lemma Steps11()
    ensures Step(0x5fc8ca8972, 6) == 0xb6722bdb6d && Step(0xb6722bdb6d, 26) == 0x5a830aa3ec
  {
  }

  lemma Steps13()
    ensures Step(0x5a830aa3ec, 23) == 0x1f0a2e88bc && Step(0x1f0a2e88bc, 2) == ONE
  {
  }

  lemma Part1()
    ensures Fold(0xc24532700, [6, 26, 21, 19, 6, 26, 23, 2]) == ONE
  {
    hide Step, Fold;
    Steps7();
    Steps9();
    Steps11();
    Steps13();
    FoldNext(0xc24532700, [6, 26, 21, 19, 6, 26, 23, 2]);
    assert [6, 26, 21, 19, 6, 26, 23, 2][1..] == [26, 21, 19, 6, 26, 23, 2];
    FoldNext(0x1c78d86e67, [26, 21, 19, 6, 26, 23, 2]);
    assert [26, 21, 19, 6, 26, 23, 2][1..] == [21, 19, 6, 26, 23, 2];
    FoldNext(0x6e5edcdb79, [21, 19, 6, 26, 23, 2]);
    assert [21, 19, 6, 26, 23, 2][1..] == [19, 6, 26, 23, 2];
    FoldNext(0xe39d3b038, [19, 6, 26, 23, 2]);
    assert [19, 6, 26, 23, 2][1..] == [6, 26, 23, 2];
    FoldNext(0x5fc8ca8972, [6, 26, 23, 2]);
    assert [6, 26, 23, 2][1..] == [26, 23, 2];
    FoldNext(0xb6722bdb6d, [26, 23, 2]);
    assert [26, 23, 2][1..] == [23, 2];
    FoldNext(0x5a830aa3ec, [23, 2]);
    assert [23, 2][1..] == [2];
    FoldNext(0x1f0a2e88bc, [2]);
    AllFolded(ONE, 2);
  }

  lemma AllFolded(c: bv64, d: Symbol)
    ensures Fold(c, [d][1..]) == c
  {
    hide Step;
  }

  lemma PrefixExpands()
    ensures ExpandPrefix("prefix") == [16, 18, 5, 6, 9, 24, 0]
  {
  }

  lemma KnownVerifies()
    ensures VerifyChecksum("prefix", [6, 26, 21, 19, 6, 26, 23, 2])
  {
    hide Fold, ExpandPrefix;
    PrefixExpands();
    Part0();
    Part1();
    FoldConcat(ONE, [16, 18, 5, 6, 9, 24, 0], [6, 26, 21, 19, 6, 26, 23, 2]);
  }

  lemma Letters()
    ensures Symbols([6, 26, 21, 19, 6, 26, 23, 2]) && Chars([6, 26, 21, 19, 6, 26, 23, 2]) == "x64nx6hz"
  {
  }

  /** The address of an empty payload under the prefix of the specification's test vectors. */
  lemma PublishedAddress()
    ensures EncodeSpec("prefix", []) == "prefix:x64nx6hz"
  {
    hide VerifyChecksum, CreateChecksum, Chars;
    var sums: seq<Symbol> := [6, 26, 21, 19, 6, 26, 23, 2];
    KnownVerifies();
    Letters();
    assert [] + sums == sums;
    ChecksumUnique("prefix", [], sums);
    assert [] + CreateChecksum("prefix", []) == sums;
  }
}
