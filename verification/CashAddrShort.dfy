/** Which strings the decoder accepts, said without its passes, and what becomes of those that verify
    with fewer symbols than a checksum has: the range of the payload then ends before it begins. */
module CashAddrShort {
  import opened CashAddrCode
  import opened CashAddr
  import opened Options

  /** The position of the first colon, or the length if there is none. */
  function FirstColon(str: string): (p: nat)
    ensures p <= |str| && (p < |str| <==> ':' in str) && (p < |str| ==> str[p] == ':')
    ensures forall j :: 0 <= j < p ==> str[j] != ':'
  {
    if str == "" then 0 else if str[0] == ':' then 0 else 1 + FirstColon(str[1..])
  }

  function PrefixPart(str: string, defaultPrefix: string): string {
    if ':' in str then Lowered(str[..FirstColon(str)]) else defaultPrefix
  }

  function AddressPart(str: string): string {
    if ':' in str then str[FirstColon(str) + 1..] else str
  }

  /** Letters of one case and digits, with at most one colon, not at the start and after no digit. */
  predicate Scannable(str: string) {
    && (forall j :: 0 <= j < |str| ==> Allowed(str[j]))
    && !((exists j :: 0 <= j < |str| && IsLower(str[j])) && (exists j :: 0 <= j < |str| && IsUpper(str[j])))
    && Separated(str)
  }

  predicate Separated(str: string) {
    forall j :: 0 <= j < |str| && str[j] == ':' ==>
      j > 0 && forall i :: 0 <= i < j ==> str[i] != ':' && !IsDigit(str[i])
  }

  predicate InCharset(s: string) {
    forall i :: 0 <= i < |s| ==> SymbolOf(s[i]).Some?
  }

  function Values(s: string): (v: seq<Symbol>)
    requires InCharset(s)
    ensures |v| == |s|
  {
    seq(|s|, i requires 0 <= i < |s| => SymbolOf(s[i]).value)
  }

  /** The string is in order and its checksum is right. */
  predicate Verifies(str: string, defaultPrefix: string) {
    && Scannable(str) && InCharset(AddressPart(str))
    && VerifyChecksum(PrefixPart(str, defaultPrefix), Values(AddressPart(str)))
  }

  // ---------------------------------------------------------------- the passes

  lemma NextAccepted(str: string, i: nat, s: Scan)
    requires i < |str| && Seen(str, i, s) && (forall j :: 0 <= j < |str| ==> Allowed(str[j])) && Separated(str)
    ensures ScanChar(s, str[i], i).Some?
  {
    assert s.prefixSize > 0 ==> str[s.prefixSize] == ':';
    assert Allowed(str[i]);
  }

  lemma {:induction false} ScanAccepts(str: string, i: nat, s: Scan)
    requires i <= |str| && (s.prefixSize == 0 || s.prefixSize < i) && Seen(str, i, s)
    requires (forall j :: 0 <= j < |str| ==> Allowed(str[j])) && Separated(str)
    ensures ScanFrom(str, i, s).Some?
    decreases |str| - i
  {
    hide Seen, Allowed, Separated;
    if i < |str| {
      NextAccepted(str, i, s);
      SeenNext(str, i, s);
      ScanAccepts(str, i + 1, ScanChar(s, str[i], i).value);
    }
  }

  lemma NothingSeen(str: string)
    ensures Seen(str, 0, Scan(false, false, false, 0))
  {
  }

  /** What was seen of the whole string says whether it is in order, and where the colon is. */
  lemma SeenAll(str: string, s: Scan)
    requires Seen(str, |str|, s)
    ensures Scannable(str) <==> !(s.upper && s.lower)
    ensures ':' in str <==> s.prefixSize != 0
    ensures s.prefixSize != 0 ==> FirstColon(str) == s.prefixSize
  {
    if s.prefixSize != 0 { assert str[s.prefixSize] == ':'; }
  }

  lemma ScanDecides(str: string)
    ensures var s := ScanFrom(str, 0, Scan(false, false, false, 0));
      && (Scannable(str) <==> s.Some? && !(s.value.upper && s.value.lower))
      && (s.Some? ==> (':' in str <==> s.value.prefixSize != 0)
                      && (s.value.prefixSize != 0 ==> FirstColon(str) == s.value.prefixSize))
  {
    hide Seen, ScanFrom, Allowed, Separated;
    var start := Scan(false, false, false, 0);
    NothingSeen(str);
    if Scannable(str) { ScanAccepts(str, 0, start); }
    if ScanFrom(str, 0, start).Some? {
      ScanMeans(str, 0, start);
      SeenAll(str, ScanFrom(str, 0, start).value);
    }
  }

  lemma {:induction false} ValuesDecide(s: string)
    ensures ValuesOf(s).Some? <==> InCharset(s)
    ensures InCharset(s) ==> ValuesOf(s) == Some(Values(s))
    decreases |s|
  {
    hide SymbolOf;
    if s != "" {
      var n := |s| - 1;
      ValuesDecide(s[..n]);
      assert InCharset(s) <==> InCharset(s[..n]) && SymbolOf(s[n]).Some?;
      if InCharset(s) { assert Values(s) == Values(s[..n]) + [SymbolOf(s[n]).value]; }
    }
  }

  /** The three outcomes.  With at least eight characters after the colon the result is always
      defined; with fewer it is undefined exactly if the string verifies. */
  lemma DecodeCases(str: string, defaultPrefix: string)
    ensures DecodeSpec(str, defaultPrefix) == Rejected <==> !Verifies(str, defaultPrefix)
    ensures DecodeSpec(str, defaultPrefix) == Undefined <==> Verifies(str, defaultPrefix) && |AddressPart(str)| < 8
    ensures Verifies(str, defaultPrefix) && |AddressPart(str)| >= 8 ==>
      DecodeSpec(str, defaultPrefix) ==
        Address(PrefixPart(str, defaultPrefix), Values(AddressPart(str))[..|AddressPart(str)| - 8])
  {
    hide SymbolOf, ScanFrom, ValuesOf, VerifyChecksum, Scannable, Lowered, InCharset, Values;
    ScanDecides(str);
    ValuesDecide(AddressPart(str));
  }

  // ---------------------------------------------------------------- seven symbols that verify

  const SHORT := "c:qvdy2z3"

  lemma PrefixSteps()
    ensures Step(ONE, 3) == 0x23 && Step(0x23, 0) == 0x460
  {
  }

  lemma EarlySteps()
    ensures Step(0x460, 0) == 0x8c00 && Step(0x8c00, 12) == 0x11800c && Step(0x11800c, 13) == 0x230018d
  {
  }

  lemma LateSteps()
    ensures Step(0x230018d, 4) == 0x460031a4 && Step(0x460031a4, 10) == 0x8c006348a
  {
  }

  lemma LastSteps()
    ensures Step(0x8c006348a, 2) == 0x80f27a1f23 && Step(0x80f27a1f23, 17) == ONE
  {
  }

  lemma FoldNext(c: bv64, v: seq<Symbol>)
    requires v != []
    ensures Fold(c, v) == Fold(Step(c, v[0]), v[1..])
  {
  }

  lemma ShortFolds()
    ensures Fold(ONE, [3, 0, 0, 12, 13, 4, 10, 2, 17]) == ONE
  {
    hide Step, Fold;
    PrefixSteps();
    EarlySteps();
    FoldNext(ONE, [3, 0, 0, 12, 13, 4, 10, 2, 17]);
    assert [3, 0, 0, 12, 13, 4, 10, 2, 17][1..] == [0, 0, 12, 13, 4, 10, 2, 17];
    FoldNext(0x23, [0, 0, 12, 13, 4, 10, 2, 17]);
    assert [0, 0, 12, 13, 4, 10, 2, 17][1..] == [0, 12, 13, 4, 10, 2, 17];
    FoldNext(0x460, [0, 12, 13, 4, 10, 2, 17]);
    assert [0, 12, 13, 4, 10, 2, 17][1..] == [12, 13, 4, 10, 2, 17];
    FoldNext(0x8c00, [12, 13, 4, 10, 2, 17]);
    assert [12, 13, 4, 10, 2, 17][1..] == [13, 4, 10, 2, 17];
    RestFolds();
  }

  lemma RestFolds()
    ensures Fold(0x11800c, [13, 4, 10, 2, 17]) == ONE
  {
    hide Step, Fold;
    EarlySteps();
    LateSteps();
    LastSteps();
    FoldNext(0x11800c, [13, 4, 10, 2, 17]);
    assert [13, 4, 10, 2, 17][1..] == [4, 10, 2, 17];
    FoldNext(0x230018d, [4, 10, 2, 17]);
    assert [4, 10, 2, 17][1..] == [10, 2, 17];
    FoldNext(0x460031a4, [10, 2, 17]);
    assert [10, 2, 17][1..] == [2, 17];
    FoldNext(0x8c006348a, [2, 17]);
    assert [2, 17][1..] == [17];
    FoldNext(0x80f27a1f23, [17]);
    NothingFolded(ONE);
  }

  lemma NothingFolded(c: bv64)
    ensures Fold(c, [17][1..]) == c
  {
  }

  lemma ShortParts(defaultPrefix: string)
    ensures FirstColon(SHORT) == 1 && PrefixPart(SHORT, defaultPrefix) == "c" && AddressPart(SHORT) == "qvdy2z3"
  {
    assert SHORT[1] == ':';
    assert SHORT[0] == 'c';
    assert Lowered("c") == "c";
    assert SHORT[..1] == "c" && SHORT[2..] == "qvdy2z3";
  }

  lemma ShortValues()
    ensures InCharset("qvdy2z3") && Values("qvdy2z3") == [0, 12, 13, 4, 10, 2, 17]
    ensures ExpandPrefix("c") == [3, 0]
  {
  }

  lemma ShortScans()
    ensures Scannable(SHORT)
  {
  }

  lemma ShortChecks()
    ensures InCharset("qvdy2z3") && VerifyChecksum("c", Values("qvdy2z3"))
  {
    hide Fold, SymbolOf, Values, InCharset, ExpandPrefix, Plus;
    ShortValues();
    ShortFolds();
    var prefix: seq<Symbol>, values: seq<Symbol> := [3, 0], [0, 12, 13, 4, 10, 2, 17];
    assert prefix + values == [3, 0, 0, 12, 13, 4, 10, 2, 17];
    SumOfTerms(ONE);
  }

  /** The bound is tight: seven symbols can verify, and then the result is undefined. */
  lemma ShortIsUndefined(defaultPrefix: string)
    ensures |AddressPart(SHORT)| == 7 && DecodeSpec(SHORT, defaultPrefix) == Undefined
  {
    hide DecodeSpec, VerifyChecksum, SymbolOf, Values, InCharset, Scannable, AddressPart, PrefixPart;
    ShortParts(defaultPrefix);
    ShortScans();
    ShortChecks();
    DecodeCases(SHORT, defaultPrefix);
  }
}
