/** The compact form of difficulty targets, and the work a block proves. */
module CompactTarget {
  import opened Arithmetic
  import opened Limbs
  import opened ArithUint256

  const TWO_24: nat := 0x100_0000
  const SIGN: nat := 0x80_0000
  function Pow256(k: nat): (p: nat)
    ensures p >= 1
  {
    if k == 0 then 1 else 256 * Pow256(k - 1)
  }

  lemma {:induction false} Pow256Is(k: nat)
    ensures Pow256(k) == Pow2(8 * k)
  {
    if k > 0 {
      Pow256Is(k - 1);
      assert Pow2(8) == 256;
      Pow2Add(8, 8 * (k - 1));
    }
  }

  lemma {:induction false} Pow256Add(i: nat, j: nat)
    ensures Pow256(i + j) == Pow256(i) * Pow256(j)
    decreases i
  {
    if i > 0 {
      Pow256Add(i - 1, j);
      Associate(256, Pow256(i - 1), Pow256(j));
    }
  }

  lemma SmallPowers()
    ensures Pow256(0) == 1 && Pow256(1) == 0x100 && Pow256(2) == 0x1_0000 && Pow256(3) == 0x100_0000
  {
  }

  lemma ModulusPower()
    ensures Modulus() == Pow256(32)
  {
    hide Pow2, PowB, Pow256;
    ModulusIs();
    Pow256Is(32);
  }

  lemma {:induction false} Pow256Grows(i: nat, j: nat)
    requires i <= j
    ensures Pow256(i) <= Pow256(j)
    decreases j
  {
    if i < j { Pow256Grows(i, j - 1); }
  }

  // ---------------------------------------------------------------- reading

  function Scale(v: nat, k: nat): nat { v * Pow256(k) }

  function SizeOf(compact: nat): nat { compact / TWO_24 }

  /** The lower 23 bits, shifted right for sizes below three. */
  function WordOf(compact: nat): nat {
    if SizeOf(compact) <= 3 then Div(compact % SIGN, Pow256(3 - SizeOf(compact))) else compact % SIGN
  }

  /** The number a compact form stands for, however large. */
  function FullValue(compact: nat): nat {
    if SizeOf(compact) <= 3 then WordOf(compact) else Scale(WordOf(compact), SizeOf(compact) - 3)
  }

  predicate IsNegative(compact: nat) { WordOf(compact) != 0 && compact / SIGN % 2 == 1 }

  predicate IsOverflow(compact: nat) {
    WordOf(compact) != 0 &&
    (|| SizeOf(compact) > 34
     || (WordOf(compact) > 0xff && SizeOf(compact) > 33)
     || (WordOf(compact) > 0xffff && SizeOf(compact) > 32))
  }

  lemma WordBelow(compact: nat)
    ensures WordOf(compact) < SIGN
  {
    if SizeOf(compact) <= 3 {
      var w, p := compact % SIGN, Pow256(3 - SizeOf(compact));
      assert w == w / p * p + w % p;
      MultiplyGrows(1, p, w / p);
      Commute(w / p, p);
    }
  }

  /** The overflow flag is set exactly when the number does not fit in 256 bits. */
  lemma OverflowIffTooLarge(compact: nat)
    ensures IsOverflow(compact) <==> FullValue(compact) >= Modulus()
  {
    hide Pow256, PowB;
    WordBelow(compact);
    ModulusPower();
    SmallPowers();
    var s, w := SizeOf(compact), WordOf(compact);
    if s <= 3 {
      Pow256Grows(3, 32);
    } else if s <= 32 {
      ScaledBelow(w, 3, s - 3, 32);
    } else if s == 33 {
      if w > 0xffff { ScaledAbove(w, 2, 30, 32); } else { ScaledBelow(w, 2, 30, 32); }
    } else if s == 34 {
      if w > 0xff { ScaledAbove(w, 1, 31, 32); } else { ScaledBelow(w, 1, 31, 32); }
    } else if w > 0 {
      ScaledAbove(w, 0, s - 3, 32);
    }
  }

  lemma ScaledBelow(w: nat, k: nat, e: nat, top: nat)
    requires w < Pow256(k) && k + e <= top
    ensures w * Pow256(e) < Pow256(top)
  {
    hide Pow256;
    Pow256Add(k, e);
    MultiplyGrows(w + 1, Pow256(k), Pow256(e));
    Distribute(w, 1, Pow256(e));
    Pow256Grows(k + e, top);
  }

  lemma ScaledAbove(w: nat, k: nat, e: nat, top: nat)
    requires w >= Pow256(k) && k + e >= top
    ensures w * Pow256(e) >= Pow256(top)
  {
    hide Pow256;
    Pow256Add(k, e);
    MultiplyGrows(Pow256(k), w, Pow256(e));
    Pow256Grows(top, k + e);
  }

  /** Sets a number from its compact form. */
  method SetCompact(pn: array<nat>, compact: nat) returns (fNegative: bool, fOverflow: bool)
    requires pn.Length == WIDTH && compact < TWO_32
    modifies pn
    ensures Limbed(pn[..]) && Value(pn[..]) == FullValue(compact) % Modulus()
    ensures fNegative == IsNegative(compact) && fOverflow == IsOverflow(compact)
  {
    hide Value, PowB, Pow2, Pow256;
    var nSize := compact / TWO_24;
    var nWord: nat := compact % SIGN;
    if nSize <= 3 { nWord := nWord / Pow256(3 - nSize); }
    WordBelow(compact);
    SetLow(pn, nWord);
    SmallFits(nWord);
    if nSize > 3 {
      ShiftLeft(pn, 8 * (nSize - 3));
      Pow256Is(nSize - 3);
    }
    fNegative := nWord != 0 && compact / SIGN % 2 == 1;
    fOverflow := nWord != 0 && (nSize > 34 || (nWord > 0xff && nSize > 33) || (nWord > 0xffff && nSize > 32));
  }

  method SetLow(pn: array<nat>, x: nat)
    requires pn.Length == WIDTH && x < BASE
    modifies pn
    ensures Limbed(pn[..]) && Value(pn[..]) == x
  {
    hide Value;
    Clear(pn);
    ghost var was := pn[..];
    assert was[0] == 0 by { AllZero(was); }
    pn[0] := x;
    assert pn[..] == was[0 := x];
    ValueUpdate(was, 0, x);
  }

  lemma SmallFits(w: nat)
    requires w < SIGN
    ensures w % Modulus() == w
  {
    hide PowB, Pow256;
    ModulusPower();
    SmallPowers();
    Pow256Grows(3, 32);
    RemainderIs(w, 0, w, Modulus());
  }

  // ---------------------------------------------------------------- writing

  /** The number of bytes of a value. */
  function Bytes(v: nat): nat { if v == 0 then 0 else 1 + Bytes(v / 256) }

  lemma {:induction false} BytesIs(v: nat)
    ensures v > 0 ==> Bytes(v) > 0 && Pow256(Bytes(v) - 1) <= v
    ensures v < Pow256(Bytes(v))
    decreases v
  {
    if v > 0 {
      BytesIs(v / 256);
      assert v == v / 256 * 256 + v % 256;
    }
  }

  /** The byte length is the only size with the value in its range. */
  lemma BytesUnique(v: nat, s: nat)
    requires s > 0 && Pow256(s - 1) <= v < Pow256(s)
    ensures Bytes(v) == s
  {
    hide Pow256;
    BytesIs(v);
    if Bytes(v) < s { Pow256Grows(Bytes(v), s - 1); } else if Bytes(v) > s { Pow256Grows(s, Bytes(v) - 1); }
  }

  lemma BytesOfBits(v: nat, bits: nat)
    requires HasBits(v, bits)
    ensures (bits + 7) / 8 == Bytes(v)
  {
    hide Pow2, Pow256;
    if v > 0 {
      var s := (bits + 7) / 8;
      Pow256Is(s);
      Pow256Is(s - 1);
      Pow2Grows(bits, 8 * s);
      Pow2Grows(8 * (s - 1), bits - 1);
      BytesUnique(v, s);
    }
  }

  function Drop(v: nat, k: nat): nat { Div(v, Pow256(k)) }

  /** The leading three bytes. */
  function Leading(v: nat): nat {
    if Bytes(v) <= 3 then Scale(v, 3 - Bytes(v)) else Drop(v, Bytes(v) - 3)
  }

  /** Size and mantissa; a mantissa that would look negative loses a byte. */
  function CompactParts(v: nat): (nat, nat) {
    if Leading(v) >= SIGN then (Bytes(v) + 1, Leading(v) / 256) else (Bytes(v), Leading(v))
  }

  function CompactOf(v: nat, fNegative: bool): nat {
    var (size, word) := CompactParts(v);
    size * TWO_24 + word + (if fNegative && word != 0 then SIGN else 0)
  }

  lemma LeadingRange(v: nat)
    ensures v > 0 ==> 0x1_0000 <= Leading(v) < 0x100_0000
    ensures v == 0 ==> Leading(v) == 0
  {
    if v > 0 {
      hide Pow256;
      BytesIs(v);
      SmallPowers();
      var s := Bytes(v);
      if s <= 3 {
        Pow256Add(s - 1, 3 - s);
        Pow256Add(s, 3 - s);
        MultiplyGrows(Pow256(s - 1), v, Pow256(3 - s));
        MultiplyGrows(v + 1, Pow256(s), Pow256(3 - s));
        Distribute(v, 1, Pow256(3 - s));
      } else {
        var p := Pow256(s - 3);
        Pow256Add(2, s - 3);
        Pow256Add(3, s - 3);
        Commute(Pow256(3), p);
        QuotientBelow(v, p, 0x100_0000);
        QuotientAbove(v, p, 0x1_0000);
      }
    }
  }

  lemma QuotientAbove(n: nat, d: nat, m: nat)
    requires d > 0 && m * d <= n
    ensures m <= n / d
  {
    var q := n / d;
    assert n == q * d + n % d;
    if q < m { MultiplyGrows(q + 1, m, d); Distribute(q, 1, d); }
  }

  lemma PartsRange(v: nat)
    requires v < Modulus()
    ensures CompactParts(v).1 < SIGN && CompactParts(v).0 <= 33 && Bytes(v) <= 32
  {
    hide Pow256, PowB;
    LeadingRange(v);
    ModulusPower();
    BytesIs(v);
    if v > 0 && Bytes(v) > 32 { Pow256Grows(32, Bytes(v) - 1); }
  }

  /** Writes a number in compact form. */
  method GetCompact(pn: seq<nat>, fNegative: bool) returns (nCompact: nat)
    requires |pn| == WIDTH && Limbed(pn)
    ensures nCompact == CompactOf(Value(pn), fNegative) && nCompact < TWO_32
  {
    hide Value, PowB, Pow2, Pow256, HasBits, Bytes;
    ghost var v := Value(pn);
    ValueBound(pn);
    PartsRange(v);
    LeadingRange(v);
    var bits := Bits(pn);
    BytesOfBits(v, bits);
    var nSize := (bits + 7) / 8;
    if nSize <= 3 {
      ShortValue(pn);
      nCompact := (pn[0] + BASE * pn[1]) * Pow256(3 - nSize);
    } else {
      var bn := new nat[WIDTH](i requires 0 <= i < WIDTH => pn[i]);
      assert bn[..] == pn;
      ShiftRight(bn, 8 * (nSize - 3));
      Pow256Is(nSize - 3);
      LowLimbs(bn[..]);
      nCompact := bn[0] + BASE * bn[1];
    }
    assert nCompact == Leading(v);
    if nCompact >= SIGN {
      nCompact := nCompact / 256;
      nSize := nSize + 1;
    }
    var word := nCompact;
    nCompact := nCompact + nSize * TWO_24;
    if fNegative && word != 0 { nCompact := nCompact + SIGN; }
  }

  /** A number below 2^24 is its lowest limb. */
  lemma LowLimbs(pn: seq<nat>)
    requires |pn| == WIDTH && Limbed(pn) && Value(pn) < 0x100_0000
    ensures pn[0] + BASE * pn[1] == Value(pn)
  {
    ValueHead(pn);
    ValueHead(pn[1..]);
  }

  lemma ShortValue(pn: seq<nat>)
    requires |pn| == WIDTH && Limbed(pn) && Bytes(Value(pn)) <= 3
    ensures pn[0] + BASE * pn[1] == Value(pn)
  {
    hide Pow256, Value;
    BytesIs(Value(pn));
    SmallPowers();
    Pow256Grows(Bytes(Value(pn)), 3);
    LowLimbs(pn);
  }

  // ---------------------------------------------------------------- stability

  /** What is left of a value after a trip through the compact form: its leading bytes. */
  lemma PartsOfScaled(m: nat, e: nat)
    requires 0x1_0000 <= m < 0x100_0000
    ensures Bytes(m * Pow256(e)) == e + 3 && Leading(m * Pow256(e)) == m
  {
    hide Pow256, Bytes;
    SmallPowers();
    Pow256Add(2, e);
    Pow256Add(3, e);
    MultiplyGrows(0x1_0000, m, Pow256(e));
    MultiplyGrows(m + 1, 0x100_0000, Pow256(e));
    Distribute(m, 1, Pow256(e));
    BytesUnique(m * Pow256(e), e + 3);
    RemainderIs(m * Pow256(e), m, 0, Pow256(e));
  }

  lemma ReadParts(size: nat, word: nat)
    requires word < SIGN && size < 256
    ensures var c := size * TWO_24 + word;
      && SizeOf(c) == size && c % SIGN == word && c / SIGN % 2 == 0 && c < TWO_32
  {
    var c := size * TWO_24 + word;
    RemainderIs(c, size, word, TWO_24);
    RemainderIs(c, 2 * size, word, SIGN);
  }

  /** Without rounding: a value of up to three bytes comes back. */
  lemma ShortComesBack(v: nat)
    requires 0 < v && Bytes(v) <= 3 && CompactParts(v).0 <= 3
    ensures FullValue(CompactOf(v, false)) == v
  {
    hide Pow256, Bytes;
    LeadingRange(v);
    var (size, word) := CompactParts(v);
    ReadParts(size, word);
    var s := Bytes(v);
    var p := Pow256(3 - s);
    if Leading(v) >= SIGN {
      Pow256Add(1, 2 - s);
      SmallPowers();
      var r := Pow256(2 - s);
      assert Leading(v) == (v * r) * 256 by { Associate(v, 256, r); Commute(v, 256); Associate(256, v, r); }
      RemainderIs(Leading(v), v * r, 0, 256);
      RemainderIs(v * r, v, 0, r);
    } else {
      RemainderIs(v * p, v, 0, p);
    }
  }

  /** With more than three bytes, or three that would look negative, the leading ones come back. */
  lemma LongComesBack(v: nat)
    requires 0 < v && CompactParts(v).0 > 3 && CompactParts(v).0 < 256
    ensures FullValue(CompactOf(v, false)) == Scale(CompactParts(v).1, CompactParts(v).0 - 3)
  {
    LeadingRange(v);
    ReadParts(CompactParts(v).0, CompactParts(v).1);
  }

  /** Compact forms are stable: writing what was read writes the same, and reads without sign or
      overflow. */
  lemma CompactStable(v: nat)
    requires v < Modulus()
    ensures var c := CompactOf(v, false);
      && c < TWO_32 && !IsNegative(c) && !IsOverflow(c) && FullValue(c) < Modulus()
      && CompactOf(FullValue(c), false) == c
  {
    hide Pow256, Bytes, PowB, Leading;
    PartsRange(v);
    LeadingRange(v);
    var (size, word) := CompactParts(v);
    var c := CompactOf(v, false);
    ReadParts(size, word);
    OverflowIffTooLarge(c);
    if v == 0 {
      ZeroCompact();
    } else if size <= 3 {
      ShortSize(v);
      ShortComesBack(v);
    } else {
      LongComesBack(v);
      LongStable(v);
    }
  }

  lemma ZeroCompact()
    ensures CompactOf(0, false) == 0 && FullValue(0) == 0 && !IsOverflow(0) && 0 < Modulus()
  {
  }

  lemma ShortSize(v: nat)
    requires CompactParts(v).0 <= 3
    ensures Bytes(v) <= 3
  {
  }

  lemma LongStable(v: nat)
    requires 0 < v < Modulus() && CompactParts(v).0 > 3
    ensures CompactParts(Scale(CompactParts(v).1, CompactParts(v).0 - 3)) == CompactParts(v)
    ensures Scale(CompactParts(v).1, CompactParts(v).0 - 3) < Modulus()
  {
    hide Pow256, Bytes, PowB, Leading, Scale;
    LeadingRange(v);
    PartsRange(v);
    if Leading(v) >= SIGN {
      RoundedStable(Leading(v), Bytes(v) - 3);
    } else {
      ExactStable(Leading(v), Bytes(v) - 3);
    }
  }

  /** A mantissa that keeps its three bytes. */
  lemma ExactStable(m: nat, e: nat)
    requires 0x1_0000 <= m < SIGN && e <= 29
    ensures CompactParts(Scale(m, e)) == (e + 3, m) && Scale(m, e) < Modulus()
  {
    hide Pow256, Bytes, PowB, Leading;
    PartsOfScaled(m, e);
    SmallPowers();
    ModulusPower();
    ScaledBelow(m, 3, e, 32);
  }

  /** A mantissa that gives up its last byte to keep the sign clear. */
  lemma RoundedStable(m: nat, e: nat)
    requires SIGN <= m < 0x100_0000 && e <= 29
    ensures CompactParts(Scale(m / 256, e + 1)) == (e + 4, m / 256) && Scale(m / 256, e + 1) < Modulus()
  {
    hide Pow256, Bytes, PowB, Leading;
    var w := m / 256;
    Pow256Add(1, e);
    SmallPowers();
    Associate(w, 256, Pow256(e));
    PartsOfScaled(w * 256, e);
    RemainderIs(w * 256, w, 0, 256);
    ModulusPower();
    ScaledBelow(w * 256, 3, e, 32);
  }

  // ---------------------------------------------------------------- signs

  lemma ReadSigned(size: nat, word: nat)
    requires word < SIGN && size < 256
    ensures var c := size * TWO_24 + word + SIGN;
      && SizeOf(c) == size && c % SIGN == word && c / SIGN % 2 == 1 && c < TWO_32
  {
    var c := size * TWO_24 + word + SIGN;
    RemainderIs(c, size, word + SIGN, TWO_24);
    RemainderIs(c, 2 * size + 1, word, SIGN);
  }

  /** The sign bit changes nothing else that is read. */
  lemma SignAside(size: nat, word: nat)
    requires word < SIGN && size < 256
    ensures var c := size * TWO_24 + word;
      && WordOf(c + SIGN) == WordOf(c) && FullValue(c + SIGN) == FullValue(c) && IsOverflow(c + SIGN) == IsOverflow(c)
      && IsNegative(c + SIGN) == (WordOf(c) != 0) && !IsNegative(c)
  {
    hide Pow256;
    ReadParts(size, word);
    ReadSigned(size, word);
  }

  /** The mantissa written for a value other than zero is not zero, and is not read as zero. */
  lemma MantissaSeen(v: nat)
    requires 0 < v < Modulus()
    ensures CompactParts(v).1 != 0 && WordOf(CompactOf(v, false)) != 0
  {
    hide Pow256, Bytes, PowB, Leading;
    PartsRange(v);
    LeadingRange(v);
    ReadParts(CompactParts(v).0, CompactParts(v).1);
    if CompactParts(v).0 <= 3 {
      ShortSize(v);
      ShortComesBack(v);
    }
  }

  /** Written with either sign, a number is read back with that sign and the same magnitude, and writing
      what was read gives the same form; zero has no sign. */
  lemma SignedRoundTrip(v: nat, fNegative: bool)
    requires v < Modulus()
    ensures var c := CompactOf(v, fNegative);
      && c < TWO_32 && !IsOverflow(c) && (IsNegative(c) <==> fNegative && v > 0)
      && FullValue(c) == FullValue(CompactOf(v, false)) < Modulus()
      && (FullValue(c) == 0 <==> v == 0)
      && CompactOf(FullValue(c), IsNegative(c)) == c
  {
    hide Pow256, Bytes, PowB, CompactParts, WordOf, FullValue, IsOverflow, IsNegative;
    CompactStable(v);
    PartsRange(v);
    var (size, word) := CompactParts(v);
    SignAside(size, word);
    if v == 0 {
      ZeroParts();
    } else {
      MantissaSeen(v);
      SameParts(v);
      SomethingRead(v);
    }
  }

  lemma ZeroParts()
    ensures CompactParts(0) == (0, 0) && FullValue(0) == 0 && !IsNegative(0)
  {
  }

  lemma SomethingRead(v: nat)
    requires 0 < v < Modulus()
    ensures FullValue(CompactOf(v, false)) > 0
  {
    hide Pow256, Bytes, PowB, CompactParts, CompactOf;
    MantissaSeen(v);
    var c := CompactOf(v, false);
    if SizeOf(c) > 3 { MultiplyGrows(1, WordOf(c), Pow256(SizeOf(c) - 3)); }
  }

  /** What was read has the size and the mantissa that were written. */
  lemma SameParts(v: nat)
    requires 0 < v < Modulus()
    ensures CompactParts(FullValue(CompactOf(v, false))) == CompactParts(v)
  {
    hide Pow256, Bytes, PowB, Leading, Scale;
    if CompactParts(v).0 <= 3 {
      ShortSize(v);
      ShortComesBack(v);
    } else {
      PartsRange(v);
      LongComesBack(v);
      LongStable(v);
    }
  }

  /** A compact form reads as its mantissa times 256 to the size less three, rounded down. */
  lemma ReadsAs(compact: nat)
    ensures var (size, m, v) := (SizeOf(compact), compact % SIGN, FullValue(compact));
      && (size >= 3 ==> v == m * Pow256(size - 3))
      && (size < 3 ==> v * Pow256(3 - size) <= m < (v + 1) * Pow256(3 - size))
  {
    hide Pow256;
    SmallPowers();
    var size, m := SizeOf(compact), compact % SIGN;
    if size < 3 {
      var q, d := m / Pow256(3 - size), Pow256(3 - size);
      assert m == q * d + m % d;
      Distribute(q, 1, d);
    } else if size == 3 {
      RemainderIs(m, m, 0, 1);
    }
  }

  lemma Remainders(v: nat, d: nat)
    requires d > 0
    ensures v / d * d <= v < v / d * d + d
  {
    assert v == v / d * d + v % d;
  }

  /** Writing loses less than one unit of the last place that is kept. */
  lemma RoundsDown(v: nat)
    requires 0 < v < Modulus()
    ensures var (w, size) := (FullValue(CompactOf(v, false)), CompactParts(v).0);
      w <= v < w + (if size <= 3 then 1 else Pow256(size - 3))
  {
    hide Pow256, PowB, Bytes;
    PartsRange(v);
    LeadingRange(v);
    SmallPowers();
    var (size, word) := CompactParts(v);
    var s := Bytes(v);
    if size <= 3 {
      ShortSize(v);
      ShortComesBack(v);
    } else {
      LongComesBack(v);
      if s == 3 {
        Remainders(v, 256);
      } else if Leading(v) < SIGN {
        Remainders(v, Pow256(s - 3));
      } else {
        Pow256Add(1, s - 3);
        ByteGoes(v, Leading(v), Pow256(s - 3));
      }
    }
  }

  lemma ByteGoes(v: nat, m: nat, d: nat)
    requires d > 0 && m == v / d
    ensures m / 256 * (256 * d) <= v < m / 256 * (256 * d) + 256 * d
  {
    Remainders(v, d);
    var q, r := m / 256, m % 256;
    assert m == q * 256 + r;
    Distribute(q * 256, r, d);
    Associate(q, 256, d);
    MultiplyGrows(r, 255, d);
  }

  /** Forms the tests of the original list, with the number, the sign and the overflow they are read as. */
  lemma KnownForms()
    ensures FullValue(0x01123456) == 0x12 && FullValue(0x02123456) == 0x1234 && FullValue(0x03123456) == 0x123456
    ensures FullValue(0x04123456) == 0x12345600 && FullValue(0x05009234) == 0x92340000
    ensures FullValue(0x04923456) == 0x12345600 && IsNegative(0x04923456) && !IsOverflow(0x04923456)
    ensures !IsNegative(0x04123456) && !IsNegative(0x01803456) && IsNegative(0x01fedcba)
    ensures IsOverflow(0xff123456) && !IsNegative(0xff123456)
  {
    SmallPowers();
  }

  // ---------------------------------------------------------------- work

  /** A compact target is never all ones, so the next number still fits. */
  lemma NextFits(compact: nat)
    requires FullValue(compact) < Modulus()
    ensures FullValue(compact) + 1 < Modulus()
  {
    hide PowB, Pow256;
    WordBelow(compact);
    ModulusPower();
    Pow256Grows(3, 32);
    SmallPowers();
    if SizeOf(compact) > 3 {
      var e := SizeOf(compact) - 4;
      Pow256Add(1, e);
      Pow256Add(1, 31);
      var w := WordOf(compact);
      assert FullValue(compact) == 256 * (w * Pow256(e)) by {
        Associate(w, 256, Pow256(e));
        Commute(w, 256);
        Associate(256, w, Pow256(e));
      }
    }
  }

  lemma WorkIdentity(m: nat, t: nat)
    requires t + 1 <= m
    ensures (m - 1 - t) / (t + 1) + 1 == m / (t + 1)
  {
    var d := t + 1;
    var q, r := m / d, m % d;
    assert m == q * d + r;
    Distribute(q - 1, 1, d);
    assert m - d == (q - 1) * d + r;
    RemainderIs(m - d, q - 1, r, d);
  }

  /** The work of a block: how many hashes on average meet its target. */
  method GetBlockProof(nBits: nat) returns (work: array<nat>)
    requires nBits < TWO_32
    ensures work.Length == WIDTH && Limbed(work[..])
    ensures Value(work[..]) ==
      if IsNegative(nBits) || IsOverflow(nBits) || FullValue(nBits) == 0 then 0
      else Modulus() / (FullValue(nBits) + 1)
  {
    hide Value, PowB, FullValue, IsOverflow, IsNegative;
    var target := new nat[WIDTH](_ => 0);
    var fNegative, fOverflow := SetCompact(target, nBits);
    OverflowIffTooLarge(nBits);
    var zero := IsZero(target[..]);
    if !fOverflow { FullFits(nBits); }
    if fNegative || fOverflow || zero {
      work := new nat[WIDTH](_ => 0);
      assert work[..] == seq(WIDTH, _ => 0);
      ValueZeros(WIDTH);
      return;
    }
    NextFits(nBits);
    work := HashesFor(target);
  }

  /** The complement divided by the target plus one, plus one. */
  method HashesFor(target: array<nat>) returns (work: array<nat>)
    requires target.Length == WIDTH && Limbed(target[..]) && 0 < Value(target[..]) && Value(target[..]) + 1 < Modulus()
    modifies target
    ensures fresh(work) && work.Length == WIDTH && Limbed(work[..])
    ensures Value(work[..]) == Modulus() / (old(Value(target[..])) + 1)
  {
    hide Value, PowB;
    ghost var t, m := Value(target[..]), Modulus();
    work := Complement(target[..]);
    var one := new nat[WIDTH](_ => 0);
    SetLow(one, 1);
    Add(target, one[..]);
    RemainderIs(t + 1, 0, t + 1, m);
    var ok := Divide(work, target[..]);
    WorkIdentity(m, t);
    WorkFits(m, t);
    Add(work, one[..]);
    RemainderIs(m / (t + 1), 0, m / (t + 1), m);
  }

  lemma FullFits(compact: nat)
    requires FullValue(compact) < Modulus()
    ensures FullValue(compact) % Modulus() == FullValue(compact)
  {
    RemainderIs(FullValue(compact), 0, FullValue(compact), Modulus());
  }

  lemma WorkFits(m: nat, t: nat)
    requires t > 0 && m > 1
    ensures m / (t + 1) < m
  {
    MultiplyGrows(2, t + 1, m);
    Commute(t + 1, m);
    QuotientBelow(m, t + 1, m);
  }

  method IsZero(pn: seq<nat>) returns (zero: bool)
    requires |pn| == WIDTH && Limbed(pn)
    ensures zero <==> Value(pn) == 0
  {
    var i := 0;
    while i < WIDTH
      invariant 0 <= i <= WIDTH && forall j :: 0 <= j < i ==> pn[j] == 0
    {
      if pn[i] != 0 {
        if Value(pn) == 0 { AllZero(pn); }
        return false;
      }
      i := i + 1;
    }
    assert pn == seq(WIDTH, _ => 0);
    ValueZeros(WIDTH);
    return true;
  }
}
