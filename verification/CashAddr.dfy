/** Cashaddr strings: a prefix, a colon, and a payload with its checksum in a 32-letter alphabet. */
module CashAddr {
  import opened CashAddrCode
  import opened Options

  // ---------------------------------------------------------------- the alphabet

  function CharOf(c: Symbol): char
    requires c < 32
  {
    if c < 16 then CharLow(c) else CharHigh(c)
  }

  function CharLow(c: Symbol): char {
    match c
    case 0 => 'q' case 1 => 'p' case 2 => 'z' case 3 => 'r' case 4 => 'y' case 5 => '9' case 6 => 'x' case 7 => '8'
    case 8 => 'g' case 9 => 'f' case 10 => '2' case 11 => 't' case 12 => 'v' case 13 => 'd' case 14 => 'w' case _ => '0'
  }

  function CharHigh(c: Symbol): char {
    match c
    case 16 => 's' case 17 => '3' case 18 => 'j' case 19 => 'n' case 20 => '5' case 21 => '4'
    case 22 => 'k' case 23 => 'h' case 24 => 'c' case 25 => 'e' case 26 => '6' case 27 => 'm'
    case 28 => 'u' case 29 => 'a' case 30 => '7' case _ => 'l'
  }

  /** The symbol of a digit or a lower-case letter, if it is in the alphabet. */
  function SymbolOfLower(c: char): Option<Symbol> {
    match c
    case '0' => Some(15) case '2' => Some(10) case '3' => Some(17) case '4' => Some(21) case '5' => Some(20)
    case '6' => Some(26) case '7' => Some(30) case '8' => Some(7) case '9' => Some(5)
    case 'a' => Some(29) case 'c' => Some(24) case 'd' => Some(13) case 'e' => Some(25) case 'f' => Some(9)
    case 'g' => Some(8) case 'h' => Some(23) case 'j' => Some(18) case 'k' => Some(22) case 'l' => Some(31)
    case 'm' => Some(27) case 'n' => Some(19) case 'p' => Some(1) case 'q' => Some(0) case 'r' => Some(3)
    case 's' => Some(16) case 't' => Some(11) case 'u' => Some(28) case 'v' => Some(12) case 'w' => Some(14)
    case 'x' => Some(6) case 'y' => Some(4) case 'z' => Some(2)
    case _ => None
  }

  predicate IsLower(c: char) { 'a' <= c <= 'z' }

  predicate IsUpper(c: char) { 'A' <= c <= 'Z' }

  predicate IsDigit(c: char) { '0' <= c <= '9' }

  function ToLower(c: char): char { if IsUpper(c) then c + 32 as char else c }

  /** Letters count in either case. */
  function SymbolOf(c: char): Option<Symbol> { SymbolOfLower(ToLower(c)) }

  lemma LowCharSymbol(c: Symbol)
    requires c < 16
    ensures SymbolOfLower(CharLow(c)) == Some(c) && (IsLower(CharLow(c)) || IsDigit(CharLow(c)))
  {
  }

  lemma HighCharSymbol(c: Symbol)
    requires 16 <= c < 32
    ensures SymbolOfLower(CharHigh(c)) == Some(c) && (IsLower(CharHigh(c)) || IsDigit(CharHigh(c)))
  {
  }

  lemma CharSymbol(c: Symbol)
    requires c < 32
    ensures SymbolOf(CharOf(c)) == Some(c)
    ensures IsLower(CharOf(c)) || IsDigit(CharOf(c))
  {
    hide CharLow, CharHigh, SymbolOfLower;
    if c < 16 { LowCharSymbol(c); } else { HighCharSymbol(c); }
  }

  lemma DigitChar(c: char)
    requires SymbolOfLower(c).Some? && c <= '9'
    ensures SymbolOfLower(c).value < 32 && CharOf(SymbolOfLower(c).value) == c
  {
  }

  lemma EarlyChar(c: char)
    requires SymbolOfLower(c).Some? && '9' < c <= 'm'
    ensures SymbolOfLower(c).value < 32 && CharOf(SymbolOfLower(c).value) == c
  {
  }

  lemma LateChar(c: char)
    requires SymbolOfLower(c).Some? && 'm' < c
    ensures SymbolOfLower(c).value < 32 && CharOf(SymbolOfLower(c).value) == c
  {
  }

  lemma SymbolChar(c: char)
    requires SymbolOf(c).Some?
    ensures SymbolOf(c).value < 32 && CharOf(SymbolOf(c).value) == ToLower(c)
  {
    hide SymbolOfLower, CharOf;
    var l := ToLower(c);
    if l <= '9' { DigitChar(l); } else if l <= 'm' { EarlyChar(l); } else { LateChar(l); }
  }

  // ---------------------------------------------------------------- checksums

  /** The low five bits of a character code. */
  function LowBits(n: nat): (d: Symbol)
    requires n < 32
    ensures d < 32
  {
    match n
    case 0 => 0 case 1 => 1 case 2 => 2 case 3 => 3 case 4 => 4 case 5 => 5 case 6 => 6 case 7 => 7
    case 8 => 8 case 9 => 9 case 10 => 10 case 11 => 11 case 12 => 12 case 13 => 13 case 14 => 14 case 15 => 15
    case 16 => 16 case 17 => 17 case 18 => 18 case 19 => 19 case 20 => 20 case 21 => 21 case 22 => 22 case 23 => 23
    case 24 => 24 case 25 => 25 case 26 => 26 case 27 => 27 case 28 => 28 case 29 => 29 case 30 => 30 case _ => 31
  }

  function ExpandPrefix(prefix: string): (v: seq<Symbol>)
    ensures Symbols(v)
  {
    seq(|prefix|, i requires 0 <= i < |prefix| => LowBits(prefix[i] as int % 32)) + [0]
  }

  predicate VerifyChecksum(prefix: string, values: seq<Symbol>) {
    Checksum(ExpandPrefix(prefix) + values) == 0
  }

  function DropGroup(m: bv64): bv64 { m >> 5 }

  /** A remainder shifted right by the groups after the i-th. */
  function Group(mod: bv64, i: nat): bv64
    requires i < 8
    decreases 8 - i
  {
    if i == 7 then mod else DropGroup(Group(mod, i + 1))
  }

  function LastGroup(m: bv64): (d: Symbol)
    ensures d < 32
  {
    (m & 0x1f) as bv8
  }

  /** The five-bit groups of a remainder, highest first. */
  function Digits(mod: bv64): (v: seq<Symbol>)
    ensures |v| == 8 && Symbols(v)
  {
    seq(8, i requires 0 <= i < 8 => LastGroup(Group(mod, i)))
  }

  function CreateChecksum(prefix: string, payload: seq<Symbol>): (v: seq<Symbol>)
    ensures |v| == 8 && Symbols(v)
  {
    Digits(Checksum(ExpandPrefix(prefix) + payload + Zeros(8)))
  }

  lemma PackSnoc(v: seq<Symbol>, d: Symbol)
    ensures Pack(v + [d]) == Packed(Pack(v), d)
  {
    hide Packed;
    assert (v + [d])[..|v|] == v;
  }

  lemma JoinGroup(m: bv64)
    requires m < LIMIT
    ensures Packed(DropGroup(m), LastGroup(m)) == m && DropGroup(m) < LIMIT
  {
  }

  lemma {:induction false} GroupBounded(mod: bv64, i: nat)
    requires i < 8 && mod < LIMIT
    ensures Group(mod, i) < LIMIT
    decreases 8 - i
  {
    hide DropGroup;
    if i < 7 {
      GroupBounded(mod, i + 1);
      JoinGroup(Group(mod, i + 1));
    }
  }

  lemma EightGroups(mod: bv64)
    requires mod < LIMIT
    ensures DropGroup(Group(mod, 0)) == 0
  {
    hide DropGroup;
    assert Group(mod, 5) == DropGroup(DropGroup(mod));
    assert Group(mod, 3) == DropGroup(DropGroup(Group(mod, 5)));
    assert Group(mod, 1) == DropGroup(DropGroup(Group(mod, 3)));
    assert Group(mod, 0) == DropGroup(Group(mod, 1));
    DropEight(mod);
  }

  lemma DropEight(m: bv64)
    requires m < LIMIT
    ensures DropGroup(DropGroup(DropGroup(DropGroup(DropGroup(DropGroup(DropGroup(DropGroup(m)))))))) == 0
  {
  }

  lemma {:induction false} DigitsPrefix(mod: bv64, k: nat)
    requires k <= 8 && mod < LIMIT
    ensures Pack(Digits(mod)[..k]) == if k == 0 then 0 else Group(mod, k - 1)
  {
    hide Packed, LastGroup, DropGroup;
    if k > 0 {
      DigitsPrefix(mod, k - 1);
      EightGroups(mod);
      GroupBounded(mod, k - 1);
      JoinGroup(Group(mod, k - 1));
      PackSnoc(Digits(mod)[..k - 1], Digits(mod)[k - 1]);
      assert Digits(mod)[..k - 1] + [Digits(mod)[k - 1]] == Digits(mod)[..k];
    }
  }

  lemma DigitsPack(mod: bv64)
    requires mod < LIMIT
    ensures Pack(Digits(mod)) == mod
  {
    hide Pack, LastGroup;
    DigitsPrefix(mod, 8);
    assert Digits(mod)[..8] == Digits(mod);
  }

  /** Appending the checksum always verifies. */
  lemma ChecksumVerifies(prefix: string, payload: seq<Symbol>)
    requires Symbols(payload)
    ensures VerifyChecksum(prefix, payload + CreateChecksum(prefix, payload))
  {
    hide Fold, Plus, Add, Digits, Pack, Zeros;
    var base := ExpandPrefix(prefix) + payload;
    var mod := Checksum(base + Zeros(8));
    var sums := Digits(mod);
    FoldConcat(ONE, base, Zeros(8));
    FoldConcat(ONE, base, sums);
    var c := Fold(ONE, base);
    ZeroSymbols(8);
    FoldBounded(ONE, base);
    FoldBounded(c, Zeros(8));
    PlusBounded(Fold(c, Zeros(8)), ONE);
    DigitsPack(mod);
    FoldPacks(sums);
    FoldLinear(c, 0, Zeros(8), sums);
    SumZeros(sums);
    SumOfTerms(c);
    SumOfTerms(ONE);
    Unmask(Fold(c, Zeros(8)));
    assert ExpandPrefix(prefix) + (payload + sums) == base + sums;
  }

  lemma ZeroSymbols(n: nat)
    ensures |Zeros(n)| == n && Symbols(Zeros(n))
  {
  }

  lemma PlusBounded(a: bv64, b: bv64)
    requires a < LIMIT && b < LIMIT
    ensures Plus(a, b) < LIMIT
  {
  }

  lemma SumZeros(v: seq<Symbol>)
    ensures |Zeros(|v|)| == |v| && Sum(Zeros(|v|), v) == v
  {
    forall i | 0 <= i < |v| ensures Add(0, v[i]) == v[i] { }
  }

  lemma Unmask(z: bv64)
    ensures Plus(z, Plus(z, ONE)) == ONE
  {
    hide Plus;
    Associate(z, z, ONE);
    SumOfTerms(z);
    SumOfTerms(ONE);
  }

  /** And nothing else does: the eight symbols that verify are determined. */
  lemma ChecksumUnique(prefix: string, payload: seq<Symbol>, sums: seq<Symbol>)
    requires Symbols(payload) && Symbols(sums) && |sums| == 8 && VerifyChecksum(prefix, payload + sums)
    ensures sums == CreateChecksum(prefix, payload)
  {
    hide Fold, Plus, Digits, CreateChecksum, Checksum;
    ChecksumVerifies(prefix, payload);
    var base := ExpandPrefix(prefix) + payload;
    var right := CreateChecksum(prefix, payload);
    var v, w := base + sums, base + right;
    assert ExpandPrefix(prefix) + (payload + sums) == v && ExpandPrefix(prefix) + (payload + right) == w;
    if sums != right {
      assert v[|base|..] == sums && w[|base|..] == right;
      assert DifferInWindow(v, w, |base|);
      BurstDetected(v, w, |base|);
    }
  }

  // ---------------------------------------------------------------- strings

  function Chars(v: seq<Symbol>): (s: string)
    requires Symbols(v)
    ensures |s| == |v|
  {
    seq(|v|, i requires 0 <= i < |v| => CharOf(v[i]))
  }

  lemma SymbolsJoin(v: seq<Symbol>, w: seq<Symbol>)
    requires Symbols(v) && Symbols(w)
    ensures Symbols(v + w)
  {
  }

  function EncodeSpec(prefix: string, payload: seq<Symbol>): string
    requires Symbols(payload)
  {
    SymbolsJoin(payload, CreateChecksum(prefix, payload));
    prefix + ":" + Chars(payload + CreateChecksum(prefix, payload))
  }

  method Encode(prefix: string, payload: seq<Symbol>) returns (ret: string)
    requires Symbols(payload)
    ensures ret == EncodeSpec(prefix, payload)
  {
    hide CharOf, CreateChecksum;
    var checksum := CreateChecksum(prefix, payload);
    SymbolsJoin(payload, checksum);
    var combined := payload + checksum;
    ret := prefix + ":";
    var i := 0;
    while i < |combined|
      invariant 0 <= i <= |combined|
      invariant ret == prefix + ":" + Chars(combined)[..i]
    {
      assert Chars(combined)[..i + 1] == Chars(combined)[..i] + [CharOf(combined[i])];
      ret := ret + [CharOf(combined[i])];
      i := i + 1;
    }
    assert Chars(combined)[..i] == Chars(combined);
  }

  /** What the first pass over a string has seen; `prefixSize` is the position of the colon. */
  datatype Scan = Scan(lower: bool, upper: bool, hasNumber: bool, prefixSize: nat)

  function ScanChar(s: Scan, c: char, i: nat): Option<Scan> {
    if IsLower(c) then Some(s.(lower := true))
    else if IsUpper(c) then Some(s.(upper := true))
    else if IsDigit(c) then Some(s.(hasNumber := true))
    else if c == ':' && !s.hasNumber && i != 0 && s.prefixSize == 0 then Some(s.(prefixSize := i))
    else None
  }

  function ScanFrom(str: string, i: nat, s: Scan): (r: Option<Scan>)
    requires i <= |str| && (s.prefixSize == 0 || s.prefixSize < i)
    ensures r.Some? ==> r.value.prefixSize == 0 || r.value.prefixSize < |str|
    decreases |str| - i
  {
    if i == |str| then Some(s)
    else if ScanChar(s, str[i], i).None? then None
    else ScanFrom(str, i + 1, ScanChar(s, str[i], i).value)
  }

  /** Lower case by setting one bit. */
  function LowerCase(c: char): char
    requires c as int < 128
  {
    if c as int / 32 % 2 == 0 then (c as int + 32) as char else c
  }

  function Lowered(s: string): (l: string)
    ensures |l| == |s|
  {
    seq(|s|, i requires 0 <= i < |s| => ToLower(s[i]))
  }

  function ValuesOf(s: string): Option<seq<Symbol>>
    decreases |s|
  {
    if s == "" then Some([])
    else
      var last := SymbolOf(s[|s| - 1]);
      var front := ValuesOf(s[..|s| - 1]);
      if last.None? || front.None? then None else Some(front.value + [last.value])
  }

  /** A string that verifies with fewer than eight symbols is undefined: the checksum is cut off the end
      unconditionally.  CashAddrShort says exactly which strings these are. */
  datatype Decoded = Rejected | Undefined | Address(prefix: string, payload: seq<Symbol>)

  function DecodeSpec(str: string, defaultPrefix: string): Decoded {
    var s := ScanFrom(str, 0, Scan(false, false, false, 0));
    if s.None? || (s.value.upper && s.value.lower) then Rejected
    else
      var p := s.value.prefixSize;
      var prefix := if p == 0 then defaultPrefix else Lowered(str[..p]);
      var values := ValuesOf(if p == 0 then str else str[p + 1..]);
      if values.None? || !VerifyChecksum(prefix, values.value) then Rejected
      else if |values.value| < 8 then Undefined
      else Address(prefix, values.value[..|values.value| - 8])
  }

  // ---------------------------------------------------------------- what the scan means

  predicate Allowed(c: char) { IsLower(c) || IsUpper(c) || IsDigit(c) || c == ':' }

  /** The part of the string before `i` as the scan records it. */
  ghost predicate Seen(str: string, i: nat, s: Scan)
    requires i <= |str|
  {
    && (forall j :: 0 <= j < i ==> Allowed(str[j]))
    && (s.lower <==> exists j :: 0 <= j < i && IsLower(str[j]))
    && (s.upper <==> exists j :: 0 <= j < i && IsUpper(str[j]))
    && (s.hasNumber <==> exists j :: 0 <= j < i && IsDigit(str[j]))
    && (forall j :: 0 <= j < i ==> (str[j] == ':' <==> s.prefixSize > 0 && j == s.prefixSize))
    && (s.prefixSize > 0 ==> s.prefixSize < i && forall j :: 0 <= j < s.prefixSize ==> !IsDigit(str[j]))
  }

  lemma SeenNext(str: string, i: nat, s: Scan)
    requires i < |str| && Seen(str, i, s) && ScanChar(s, str[i], i).Some?
    ensures Seen(str, i + 1, ScanChar(s, str[i], i).value)
  {
  }

  lemma {:induction false} ScanMeans(str: string, i: nat, s: Scan)
    requires i <= |str| && (s.prefixSize == 0 || s.prefixSize < i)
    requires Seen(str, i, s) && ScanFrom(str, i, s).Some?
    ensures Seen(str, |str|, ScanFrom(str, i, s).value)
    decreases |str| - i
  {
    hide Seen;
    if i < |str| {
      SeenNext(str, i, s);
      ScanMeans(str, i + 1, ScanChar(s, str[i], i).value);
    }
  }

  /** A string the scan accepts: letters, digits, and at most one colon, after letters. */
  predicate Plain(str: string, p: nat) {
    && p < |str| && p > 0
    && forall j :: 0 <= j < |str| ==>
         if j == p then str[j] == ':' else if j < p then IsLower(str[j]) else IsLower(str[j]) || IsDigit(str[j])
  }

  lemma {:induction false} PlainScans(str: string, p: nat, i: nat, s: Scan)
    requires Plain(str, p) && i <= |str| && !s.upper
    requires if i <= p then !s.hasNumber && s.prefixSize == 0 else s.prefixSize == p
    ensures ScanFrom(str, i, s).Some?
    ensures !ScanFrom(str, i, s).value.upper && ScanFrom(str, i, s).value.prefixSize == p
    decreases |str| - i
  {
    if i < |str| { PlainScans(str, p, i + 1, ScanChar(s, str[i], i).value); }
  }

  // ---------------------------------------------------------------- round trips

  lemma {:induction false} ValuesOfChars(v: seq<Symbol>)
    requires Symbols(v)
    ensures ValuesOf(Chars(v)) == Some(v)
    decreases |v|
  {
    hide CharOf, SymbolOf;
    if v != [] {
      var n := |v| - 1;
      CharSymbol(v[n]);
      ValuesOfChars(v[..n]);
      assert Chars(v)[..n] == Chars(v[..n]);
      assert v == v[..n] + [v[n]];
    }
  }

  lemma {:induction false} CharsOfValues(s: string)
    requires ValuesOf(s).Some?
    ensures Symbols(ValuesOf(s).value) && |ValuesOf(s).value| == |s|
    ensures Chars(ValuesOf(s).value) == Lowered(s)
    decreases |s|
  {
    hide CharOf, SymbolOf, ToLower;
    if s != "" {
      var n := |s| - 1;
      SymbolChar(s[n]);
      CharsOfValues(s[..n]);
      var front := ValuesOf(s[..n]).value;
      assert Lowered(s) == Lowered(s[..n]) + [ToLower(s[n])];
      assert Chars(front + [SymbolOf(s[n]).value]) == Chars(front) + [CharOf(SymbolOf(s[n]).value)];
    }
  }

  lemma CharsArePlain(v: seq<Symbol>)
    requires Symbols(v)
    ensures forall i :: 0 <= i < |v| ==> IsLower(Chars(v)[i]) || IsDigit(Chars(v)[i])
  {
    hide CharOf;
    forall i | 0 <= i < |v| ensures IsLower(Chars(v)[i]) || IsDigit(Chars(v)[i]) { CharSymbol(v[i]); }
  }

  /** Decoding inverts encoding for every prefix of lower-case letters. */
  lemma DecodeInvertsEncode(prefix: string, payload: seq<Symbol>, defaultPrefix: string)
    requires prefix != "" && (forall i :: 0 <= i < |prefix| ==> IsLower(prefix[i])) && Symbols(payload)
    ensures DecodeSpec(EncodeSpec(prefix, payload), defaultPrefix) == Address(prefix, payload)
  {
    hide CharOf, SymbolOf, CreateChecksum, Checksum, ValuesOf, Chars, ScanFrom;
    var sums := CreateChecksum(prefix, payload);
    SymbolsJoin(payload, sums);
    var v := payload + sums;
    var str := EncodeSpec(prefix, payload);
    var p := |prefix|;
    CharsArePlain(v);
    assert str[p + 1..] == Chars(v) && str[..p] == prefix && str[p] == ':';
    assert Plain(str, p);
    PlainScans(str, p, 0, Scan(false, false, false, 0));
    assert Lowered(prefix) == prefix;
    ValuesOfChars(v);
    ChecksumVerifies(prefix, payload);
    assert v[..|v| - 8] == payload;
  }

  /** Whatever is accepted is, up to case, exactly the encoding of what it decodes to. */
  lemma DecodeIsCanonical(str: string, defaultPrefix: string)
    requires DecodeSpec(str, defaultPrefix).Address?
    ensures var a := DecodeSpec(str, defaultPrefix);
      Symbols(a.payload) &&
      EncodeSpec(a.prefix, a.payload) == (if ':' in str then "" else defaultPrefix + ":") + Lowered(str)
  {
    hide CharOf, SymbolOf, CreateChecksum, Checksum, ValuesOf, Chars, ScanFrom, ToLower, Lowered;
    var s := ScanFrom(str, 0, Scan(false, false, false, 0)).value;
    ScanMeans(str, 0, Scan(false, false, false, 0));
    var a := DecodeSpec(str, defaultPrefix);
    var p := s.prefixSize;
    var tail := if p == 0 then str else str[p + 1..];
    var values := ValuesOf(tail).value;
    CharsOfValues(tail);
    var n := |values| - 8;
    var payload, sums := values[..n], values[n..];
    assert values == payload + sums;
    ChecksumUnique(a.prefix, payload, sums);
    assert EncodeSpec(a.prefix, payload) == a.prefix + ":" + Lowered(tail);
    if p > 0 {
      LoweredAround(str, p);
    } else {
      assert ':' !in str;
    }
  }

  lemma LoweredAround(str: string, p: nat)
    requires p < |str| && str[p] == ':'
    ensures Lowered(str) == Lowered(str[..p]) + ":" + Lowered(str[p + 1..])
  {
    hide ToLower;
    ColonStays();
  }

  lemma ColonStays()
    ensures ToLower(':') == ':'
  {
  }

  /** On letters, setting the bit is lower case. */
  lemma LowerCaseLetters(c: char)
    requires IsLower(c) || IsUpper(c)
    ensures c as int < 128 && LowerCase(c) == ToLower(c)
  {
  }

  // ---------------------------------------------------------------- decoding in place

  method ScanString(str: string) returns (s: Option<Scan>)
    ensures s == ScanFrom(str, 0, Scan(false, false, false, 0))
  {
    var scan := Scan(false, false, false, 0);
    var i := 0;
    while i < |str|
      invariant 0 <= i <= |str| && (scan.prefixSize == 0 || scan.prefixSize < i)
      invariant ScanFrom(str, i, scan) == ScanFrom(str, 0, Scan(false, false, false, 0))
    {
      var c := str[i];
      if 'a' <= c <= 'z' {
        scan := scan.(lower := true);
      } else if 'A' <= c <= 'Z' {
        scan := scan.(upper := true);
      } else if '0' <= c <= '9' {
        scan := scan.(hasNumber := true);
      } else if c == ':' {
        if scan.hasNumber || i == 0 || scan.prefixSize != 0 { return None; }
        scan := scan.(prefixSize := i);
      } else {
        return None;
      }
      i := i + 1;
    }
    return Some(scan);
  }

  method ReadValues(s: string) returns (values: Option<seq<Symbol>>)
    ensures values == ValuesOf(s)
  {
    hide SymbolOf;
    var v: seq<Symbol> := [];
    var i := 0;
    assert s[..0] == "";
    while i < |s|
      invariant 0 <= i <= |s| && ValuesOf(s[..i]) == Some(v)
    {
      assert s[..i + 1][..i] == s[..i];
      var d := SymbolOf(s[i]);
      if d.None? {
        NoneStays(s, i + 1);
        return None;
      }
      v := v + [d.value];
      i := i + 1;
    }
    assert s[..i] == s;
    return Some(v);
  }

  lemma {:induction false} NoneStays(s: string, i: nat)
    requires i <= |s| && ValuesOf(s[..i]).None?
    ensures ValuesOf(s).None?
    decreases |s| - i
  {
    hide SymbolOf;
    if i == |s| {
      assert s[..i] == s;
    } else {
      assert s[..i + 1][..i] == s[..i];
      NoneStays(s, i + 1);
    }
  }

  method LowerPrefix(s: string) returns (prefix: string)
    requires forall i :: 0 <= i < |s| ==> IsLower(s[i]) || IsUpper(s[i])
    ensures prefix == Lowered(s)
  {
    hide ToLower;
    prefix := "";
    var i := 0;
    while i < |s|
      invariant 0 <= i <= |s| && prefix == Lowered(s)[..i]
    {
      LowerCaseLetters(s[i]);
      assert Lowered(s)[..i + 1] == Lowered(s)[..i] + [ToLower(s[i])];
      prefix := prefix + [LowerCase(s[i])];
      i := i + 1;
    }
  }

  method Decode(str: string, defaultPrefix: string) returns (r: Decoded)
    ensures r == DecodeSpec(str, defaultPrefix)
  {
    hide SymbolOf, ScanFrom, ValuesOf, Checksum;
    var scan := ScanString(str);
    if scan.None? { return Rejected; }
    ScanMeans(str, 0, Scan(false, false, false, 0));
    var s := scan.value;
    if s.upper && s.lower { return Rejected; }
    var prefix := defaultPrefix;
    var start := 0;
    if s.prefixSize != 0 {
      prefix := LowerPrefix(str[..s.prefixSize]);
      start := s.prefixSize + 1;
    }
    assert str[0..] == str;
    var values := ReadValues(str[start..]);
    if values.None? { return Rejected; }
    var mod := PolyMod(ExpandPrefix(prefix) + values.value);
    if mod != 0 { return Rejected; }
    if |values.value| < 8 { return Undefined; }
    return Address(prefix, values.value[..|values.value| - 8]);
  }
}
