/** Shifts and division of 256-bit numbers, limb by limb. */
module ArithUint256 {
  import opened Arithmetic
  import opened Limbs

  // ---------------------------------------------------------------- bitwise or

  function Or(a: nat, b: nat): nat {
    if a == 0 then b else if b == 0 then a
    else 2 * Or(a / 2, b / 2) + (if a % 2 == 1 || b % 2 == 1 then 1 else 0)
  }

  /** Bits that do not meet add up. */
  lemma {:induction false} OrAdds(a: nat, b: nat, k: nat)
    requires a < Pow2(k) && b % Pow2(k) == 0
    ensures Or(a, b) == a + b && Or(b, a) == a + b
    decreases k
  {
    if k > 0 && a > 0 && b > 0 {
      var p := Pow2(k - 1);
      HalveMultiple(b, p);
      OrAdds(a / 2, b / 2, k - 1);
    }
  }

  lemma HalveMultiple(b: nat, p: nat)
    requires p > 0 && b % (2 * p) == 0
    ensures b % 2 == 0 && b / 2 % p == 0
  {
    var q := b / (2 * p);
    assert b == q * (2 * p);
    assert b == 2 * (q * p) by { Associate(q, 2, p); Associate(2, q, p); Commute(q, 2); }
    RemainderIs(b / 2, q, 0, p);
  }

  // ---------------------------------------------------------------- shifting left

  /** A limb without its low bits. */
  function HighBits(x: nat, s: nat): nat { Div(x, Pow2(s)) }

  /** What of a limb shifted left stays in it, and what goes over to the next. */
  function Kept(x: nat, s: nat): nat { x * Pow2(s) % BASE }

  function Over(x: nat, s: nat): nat
    requires s < 32
  {
    if s == 0 then 0 else HighBits(x, 32 - s)
  }

  /** A limb shifted left within a limb, and what goes over. */
  lemma LimbLeft(x: nat, s: nat)
    requires x < BASE && s < 32
    ensures var lo, hi := Kept(x, s), Over(x, s);
      x * Pow2(s) == lo + BASE * hi && lo < BASE && hi < Pow2(s) && lo % Pow2(s) == 0 && lo + Pow2(s) <= BASE
  {
    hide Pow2;
    if s == 0 {
      UnitPower();
      RemainderIs(x, 0, x, BASE);
      RemainderIs(x, x, 0, 1);
    } else {
      Pow2Add(s, 32 - s);
      Pow2Limb();
      LimbLeftParts(x, Pow2(s), Pow2(32 - s));
    }
  }

  lemma LimbLeftParts(x: nat, p: nat, c: nat)
    requires p > 0 && c > 0 && p * c == BASE && x < BASE
    ensures x * p == x * p % BASE + BASE * (x / c) && x / c < p
    ensures x * p % BASE % p == 0 && x * p % BASE + p <= BASE
  {
    var hi, r := x / c, x % c;
    assert x == hi * c + r;
    assert x * p == hi * BASE + r * p by {
      Distribute(hi * c, r, p);
      Associate(hi, c, p);
      Commute(c, p);
    }
    MultiplyGrows(r + 1, c, p);
    Distribute(r, 1, p);
    Commute(c, p);
    RemainderIs(x * p, hi, r * p, BASE);
    RemainderIs(r * p, r, 0, p);
    QuotientBelow(x, c, p);
  }

  lemma UnitPower()
    ensures Pow2(0) == 1
  {
  }

  /** How far the loop has come: everything placed so far, modulo what fell off the end. */
  ghost predicate LeftDone(a: seq<nat>, pn: seq<nat>, k: nat, s: nat, i: nat, q: int) {
    && |pn| == |a| == WIDTH && i <= WIDTH && Limbed(pn)
    && Value(pn) + Modulus() * q == PowB(k) * Pow2(s) * Value(a[..i])
    && (forall j :: i + k < j < WIDTH ==> pn[j] == 0)
    && (i + k < WIDTH ==> pn[i + k] < Pow2(s))
  }

  method ShiftLeft(pn: array<nat>, shift: nat)
    requires pn.Length == WIDTH && Limbed(pn[..])
    modifies pn
    ensures Limbed(pn[..]) && Value(pn[..]) == old(Value(pn[..])) * Pow2(shift) % Modulus()
  {
    hide PowB, Value, Pow2, LeftDone, Kept, Over;
    var a := pn[..];
    Clear(pn);
    var k, s := shift / 32, shift % 32;
    var i := 0;
    ghost var q := 0;
    LeftStart(a, pn[..], k, s);
    while i < WIDTH
      invariant 0 <= i <= WIDTH && LeftDone(a, pn[..], k, s, i, q)
    {
      ghost var before := pn[..];
      LeftFacts(a, before, k, s, i, q);
      if i + k + 1 < WIDTH && s != 0 { pn[i + k + 1] := Or(pn[i + k + 1], Over(a[i], s)); }
      if i + k < WIDTH { pn[i + k] := Or(pn[i + k], Kept(a[i], s)); }
      q := LeftStep(a, before, pn[..], k, s, i, q);
      i := i + 1;
    }
    LeftEnd(a, pn[..], k, s, q);
    Pow2Split(shift);
  }

  lemma Pow2Split(shift: nat)
    ensures Pow2(shift) == PowB(shift / 32) * Pow2(shift % 32)
  {
    hide Pow2, PowB;
    Pow2Add(32 * (shift / 32), shift % 32);
    Pow2Limbs(shift / 32);
  }

  lemma LeftStart(a: seq<nat>, pn: seq<nat>, k: nat, s: nat)
    requires |a| == |pn| == WIDTH && Limbed(pn) && Value(pn) == 0
    ensures LeftDone(a, pn, k, s, 0, 0)
  {
    hide PowB, Pow2;
    NoLimbs(a, PowB(k) * Pow2(s));
    AllZero(pn);
  }

  lemma {:induction false} AllZero(s: seq<nat>)
    requires Value(s) == 0
    ensures forall j :: 0 <= j < |s| ==> s[j] == 0
    decreases |s|
  {
    if s != [] { AllZero(s[1..]); }
  }

  lemma LeftFacts(a: seq<nat>, pn: seq<nat>, k: nat, s: nat, i: nat, q: int)
    requires Limbed(a) && s < 32 && i < WIDTH && LeftDone(a, pn, k, s, i, q)
    ensures |a| == |pn| == WIDTH && a[i] < BASE && (i + k + 1 < WIDTH ==> pn[i + k + 1] == 0)
    ensures i + k + 1 < WIDTH ==> Or(pn[i + k + 1], Over(a[i], s)) == Over(a[i], s) < BASE
    ensures s == 0 ==> Over(a[i], s) == 0
    ensures i + k < WIDTH ==> Or(pn[i + k], Kept(a[i], s)) == pn[i + k] + Kept(a[i], s) < BASE
  {
    hide PowB, Value, Pow2, Kept;
    LimbLeft(a[i], s);
    PowerBelow(s);
    if i + k < WIDTH { OrAdds(pn[i + k], Kept(a[i], s), s); }
  }

  lemma PowerBelow(s: nat)
    requires s <= 32
    ensures Pow2(s) <= BASE
  {
    hide Pow2;
    Pow2Limb();
    Pow2Add(s, 32 - s);
    MultiplyGrows(1, Pow2(32 - s), Pow2(s));
    Commute(Pow2(s), Pow2(32 - s));
  }

  /** The limb and its overflow land where they belong, or beyond the end. */
  lemma LeftStep(a: seq<nat>, before: seq<nat>, after: seq<nat>, k: nat, s: nat, i: nat, q: int) returns (q': int)
    requires Limbed(a) && s < 32 && i < WIDTH && LeftDone(a, before, k, s, i, q)
    requires var hi, lo := Over(a[i], s), Kept(a[i], s);
      && |after| == WIDTH
      && (forall j :: 0 <= j < WIDTH && j != i + k && j != i + k + 1 ==> after[j] == before[j])
      && (i + k < WIDTH ==> after[i + k] == before[i + k] + lo < BASE)
      && (i + k + 1 < WIDTH ==> after[i + k + 1] == hi)
    ensures LeftDone(a, after, k, s, i + 1, q')
  {
    hide PowB, Value, Pow2, Kept, Over;
    var hi, lo := Over(a[i], s), Kept(a[i], s);
    LimbLeft(a[i], s);
    PowerBelow(s);
    var n := i + k;
    var mid := PutIf(before, n, lo);
    var q1 := PlaceLimb(before, n, lo);
    var q2 := PlaceLimb(mid, n + 1, hi);
    assert after == PutIf(mid, n + 1, hi);
    q' := q + q1 + q2;
    LeftArithmetic(Value(before), Value(mid), Value(after), q, q1, q2, k, s, a, i, lo, hi);
  }

  /** Adds to a limb, if it is there. */
  function PutIf(s: seq<nat>, j: nat, x: nat): seq<nat> {
    if j < |s| then s[j := s[j] + x] else s
  }

  /** Adding at a position beyond the end changes the value by a multiple of the modulus. */
  lemma PlaceLimb(s: seq<nat>, j: nat, x: nat) returns (q: int)
    requires |s| == WIDTH
    ensures Value(PutIf(s, j, x)) + Modulus() * q == Value(s) + PowB(j) * x
  {
    hide PowB, Value;
    if j < |s| {
      q := 0;
      ValueUpdate(s, j, s[j] + x);
      Commute(x, PowB(j));
    } else {
      PowBAdd(WIDTH, j - WIDTH);
      q := PowB(j - WIDTH) * x;
      Associate(Modulus(), PowB(j - WIDTH), x);
    }
  }

  lemma LeftArithmetic(v0: int, v1: int, v2: int, q: int, q1: int, q2: int, k: nat, s: nat, a: seq<nat>, i: nat,
                       lo: int, hi: int)
    requires i < |a|
    requires v0 + Modulus() * q == PowB(k) * Pow2(s) * Value(a[..i])
    requires v1 + Modulus() * q1 == v0 + PowB(i + k) * lo && v2 + Modulus() * q2 == v1 + PowB(i + k + 1) * hi
    requires a[i] * Pow2(s) == lo + BASE * hi
    ensures v2 + Modulus() * (q + q1 + q2) == PowB(k) * Pow2(s) * Value(a[..i + 1])
  {
    hide PowB, Value, Pow2;
    var m, c, p := Modulus(), PowB(k) * Pow2(s), PowB(i + k);
    ValueNext(a, i);
    PowBNext(i + k);
    PowBAdd(i, k);
    Distribute(q + q1, q2, m);
    Distribute(q, q1, m);
    Distribute(Value(a[..i]), PowB(i) * a[i], c);
    ShiftedLimb(PowB(k), Pow2(s), PowB(i), a[i], p, lo, hi);
  }

  lemma ShiftedLimb(pk: int, ps: int, pi: int, x: int, p: int, lo: int, hi: int)
    requires p == pi * pk && x * ps == lo + BASE * hi
    ensures pk * ps * (pi * x) == p * lo + (BASE * p) * hi
  {
    calc {
      pk * ps * (pi * x);
      { Associate(pk, ps, pi * x); Associate(ps, pi, x); Commute(ps, pi); Associate(pi, ps, x); Commute(ps, x); }
      pk * (pi * (x * ps));
      { Associate(pk, pi, x * ps); Commute(pk, pi); }
      p * (lo + BASE * hi);
      { Distribute(lo, BASE * hi, p); }
      p * lo + p * (BASE * hi);
      { Associate(p, BASE, hi); Commute(p, BASE); }
      p * lo + (BASE * p) * hi;
    }
  }

  lemma LeftEnd(a: seq<nat>, pn: seq<nat>, k: nat, s: nat, q: int)
    requires LeftDone(a, pn, k, s, WIDTH, q)
    ensures Limbed(pn) && Value(pn) == Value(a) * (PowB(k) * Pow2(s)) % Modulus()
  {
    hide PowB, Value, Pow2;
    assert a[..WIDTH] == a;
    ValueBound(pn);
    Commute(Value(a), PowB(k) * Pow2(s));
    Commute(Modulus(), q);
    RemainderIs(Value(a) * (PowB(k) * Pow2(s)), q, Value(pn), Modulus());
  }

  // ---------------------------------------------------------------- shifting right

  lemma LimbRightParts(x: nat, p: nat, c: nat)
    requires p > 0 && c > 0 && p * c == BASE && x < BASE
    ensures x / p < c && x == x / p * p + x % p
    ensures x * c % BASE == x % p * c && x % p * c % c == 0 && x % p * c + c <= BASE
  {
    var hi, lo := x / p, x % p;
    assert x == hi * p + lo;
    Commute(p, c);
    QuotientBelow(x, p, c);
    MultiplyGrows(lo + 1, p, c);
    Distribute(lo, 1, c);
    assert x * c == hi * BASE + lo * c by {
      Distribute(hi * p, lo, c);
      Associate(hi, p, c);
    }
    RemainderIs(x * c, hi, lo * c, BASE);
    RemainderIs(lo * c, lo, 0, c);
  }

  /** The bits of a limb that fall to the limb below. */
  function LowBits(x: nat, s: nat): nat
    requires s < 32
  {
    if s == 0 then 0 else x % Pow2(s) * Pow2(32 - s)
  }

  /** How far the loop has come: the limbs seen are what is placed, times the divisor, and a rest. */
  ghost predicate RightDone(a: seq<nat>, pn: seq<nat>, k: nat, s: nat, i: nat, rest: nat) {
    && |pn| == |a| == WIDTH && i <= WIDTH && s < 32 && Limbed(pn)
    && Value(a[..i]) == PowB(k) * Pow2(s) * Value(pn) + rest && rest < PowB(k) * Pow2(s)
    && (forall j :: 0 <= j < WIDTH && j + k >= i ==> pn[j] == 0)
    && (k < i ==> pn[i - k - 1] < Pow2(32 - s))
    && (i <= k ==> Value(pn) == 0)
  }

  method ShiftRight(pn: array<nat>, shift: nat)
    requires pn.Length == WIDTH && Limbed(pn[..])
    modifies pn
    ensures Limbed(pn[..]) && Value(pn[..]) == old(Value(pn[..])) / Pow2(shift)
  {
    hide PowB, Value, Pow2, RightDone;
    var a := pn[..];
    Clear(pn);
    var k, s := shift / 32, shift % 32;
    var i := 0;
    ghost var rest: nat := 0;
    RightStart(a, pn[..], k, s);
    while i < WIDTH
      invariant 0 <= i <= WIDTH && RightDone(a, pn[..], k, s, i, rest)
    {
      ghost var before := pn[..];
      RightFacts(a, before, k, s, i, rest);
      if i - k - 1 >= 0 && s != 0 {
        var low: nat := a[i] * Pow2(32 - s) % BASE;
        pn[i - k - 1] := Or(pn[i - k - 1], low);
      }
      if i - k >= 0 { pn[i - k] := Or(pn[i - k], HighBits(a[i], s)); }
      rest := RightStep(a, before, pn[..], k, s, i, rest);
      i := i + 1;
    }
    RightEnd(a, pn[..], k, s, rest);
    Pow2Split(shift);
  }

  lemma RightStart(a: seq<nat>, pn: seq<nat>, k: nat, s: nat)
    requires |a| == |pn| == WIDTH && Limbed(pn) && Value(pn) == 0 && s < 32
    ensures RightDone(a, pn, k, s, 0, 0)
  {
    hide PowB, Pow2;
    NoLimbs(a, 0);
    MultiplyGrows(1, PowB(k), Pow2(s));
    AllZero(pn);
  }

  lemma RightFacts(a: seq<nat>, pn: seq<nat>, k: nat, s: nat, i: nat, rest: nat)
    requires Limbed(a) && s < 32 && i < WIDTH && RightDone(a, pn, k, s, i, rest)
    ensures |a| == |pn| == WIDTH && a[i] < BASE && Limbed(pn)
    ensures s != 0 ==> a[i] * Pow2(32 - s) % BASE == LowBits(a[i], s)
    ensures i - k - 1 >= 0 ==> pn[i - k - 1] < BASE
    ensures i - k - 1 >= 0 && s != 0 ==> Or(pn[i - k - 1], LowBits(a[i], s)) == pn[i - k - 1] + LowBits(a[i], s) < BASE
    ensures i - k >= 0 ==> Or(pn[i - k], HighBits(a[i], s)) == HighBits(a[i], s) < BASE
  {
    hide PowB, Value, Pow2;
    var x := a[i];
    if s == 0 {
      UnitPower();
      RemainderIs(x, x, 0, 1);
    } else {
      Pow2Add(s, 32 - s);
      Pow2Limb();
      LimbRightParts(x, Pow2(s), Pow2(32 - s));
      PowerBelow(32 - s);
      if i - k - 1 >= 0 { OrAdds(pn[i - k - 1], LowBits(x, s), 32 - s); }
    }
  }

  lemma RightStep(a: seq<nat>, before: seq<nat>, after: seq<nat>, k: nat, s: nat, i: nat, rest: nat)
    returns (rest': nat)
    requires Limbed(a) && s < 32 && i < WIDTH && RightDone(a, before, k, s, i, rest)
    requires |after| == WIDTH && Limbed(after)
    requires forall j :: 0 <= j < WIDTH && j != i - k && j != i - k - 1 ==> after[j] == before[j]
    requires i - k >= 0 ==> after[i - k] == HighBits(a[i], s)
    requires i - k - 1 >= 0 ==> after[i - k - 1] == before[i - k - 1] + LowBits(a[i], s)
    ensures RightDone(a, after, k, s, i + 1, rest')
  {
    hide PowB, Value, Pow2;
    var x := a[i];
    if i < k {
      assert after == before;
      rest' := Value(a[..i + 1]);
      BelowDivisor(a, i, k, s);
    } else {
      RightLimb(x, s);
      var mid := before[i - k := HighBits(x, s)];
      ValueUpdate(before, i - k, HighBits(x, s));
      if i == k {
        assert after == mid;
        UnitBase();
        RightFirst(a, Value(before), Value(after), k, s, rest);
        rest' := rest + PowB(k) * (x % Pow2(s));
      } else {
        assert after == mid[i - k - 1 := mid[i - k - 1] + LowBits(x, s)];
        ValueUpdate(mid, i - k - 1, mid[i - k - 1] + LowBits(x, s));
        RightNext(a, Value(before), Value(mid), Value(after), k, s, i, LowBits(x, s), rest);
        rest' := rest;
      }
    }
  }

  lemma UnitBase()
    ensures PowB(0) == 1
  {
  }

  lemma RightLimb(x: nat, s: nat)
    requires x < BASE && s < 32
    ensures x == x / Pow2(s) * Pow2(s) + x % Pow2(s) && x / Pow2(s) < Pow2(32 - s)
    ensures s == 0 ==> Pow2(s) == 1 && x % Pow2(s) == 0
    ensures Pow2(s) * Pow2(32 - s) == BASE
  {
    hide Pow2;
    Pow2Add(s, 32 - s);
    Pow2Limb();
    LimbRightParts(x, Pow2(s), Pow2(32 - s));
    if s == 0 {
      UnitPower();
      RemainderIs(x, x, 0, 1);
    }
  }

  lemma BelowDivisor(a: seq<nat>, i: nat, k: nat, s: nat)
    requires Limbed(a) && i < k && i < |a|
    ensures Value(a[..i + 1]) < PowB(k) * Pow2(s)
  {
    hide PowB, Value, Pow2;
    ValueBound(a[..i + 1]);
    PowBAdd(i + 1, k - i - 1);
    MultiplyGrows(1, PowB(k - i - 1), PowB(i + 1));
    Commute(PowB(i + 1), PowB(k - i - 1));
    MultiplyGrows(1, Pow2(s), PowB(k));
    Commute(PowB(k), Pow2(s));
  }

  /** The first limb placed: its low bits join the rest. */
  lemma RightFirst(a: seq<nat>, v0: nat, v1: int, k: nat, s: nat, rest: nat)
    requires k < |a| && Limbed(a) && v0 == 0 && Value(a[..k]) == PowB(k) * Pow2(s) * v0 + rest
    requires a[k] == a[k] / Pow2(s) * Pow2(s) + a[k] % Pow2(s)
    requires PowB(0) == 1 && v1 == v0 + (a[k] / Pow2(s) - 0) * PowB(0)
    ensures Value(a[..k + 1]) == PowB(k) * Pow2(s) * v1 + (rest + PowB(k) * (a[k] % Pow2(s)))
    ensures rest + PowB(k) * (a[k] % Pow2(s)) < PowB(k) * Pow2(s)
  {
    hide PowB, Value, Pow2;
    var p, c := PowB(k), Pow2(s);
    var hi, lo := a[k] / c, a[k] % c;
    ValueNext(a, k);
    ValueBound(a[..k]);
    Distribute(hi * c, lo, p);
    Associate(p, c, hi);
    Commute(hi, c);
    MultiplyGrows(lo + 1, c, p);
    Distribute(lo, 1, p);
    Commute(p, lo);
    Commute(p, c);
  }

  /** A later limb: its high bits start a new limb, its low bits complete the one before. */
  lemma RightNext(a: seq<nat>, v0: nat, v1: int, v2: int, k: nat, s: nat, i: nat, lo: nat, rest: nat)
    requires k < i < |a| && s < 32
    requires Value(a[..i]) == PowB(k) * Pow2(s) * v0 + rest
    requires a[i] == a[i] / Pow2(s) * Pow2(s) + a[i] % Pow2(s) && Pow2(s) * Pow2(32 - s) == BASE
    requires v1 == v0 + (a[i] / Pow2(s) - 0) * PowB(i - k) && v2 == v1 + lo * PowB(i - k - 1)
    requires lo == if s == 0 then 0 else a[i] % Pow2(s) * Pow2(32 - s)
    requires s == 0 ==> a[i] % Pow2(s) == 0
    ensures Value(a[..i + 1]) == PowB(k) * Pow2(s) * v2 + rest
  {
    hide PowB, Value, Pow2;
    var pk, ps, c := PowB(k), Pow2(s), Pow2(32 - s);
    var hi, low := a[i] / ps, a[i] % ps;
    ValueNext(a, i);
    PowBAdd(k, i - k);
    PowBNext(i - k - 1);
    PowBAdd(k, i - k - 1);
    HighTerm(pk, ps, hi, PowB(i - k), PowB(i));
    LowTerm(pk, ps, c, low, lo, PowB(i - k - 1), PowB(i), s == 0);
    var d := pk * ps;
    Distribute(v0, hi * PowB(i - k), d);
    Distribute(v0 + hi * PowB(i - k), lo * PowB(i - k - 1), d);
    Distribute(hi * ps, low, PowB(i));
  }

  lemma HighTerm(pk: int, ps: int, hi: int, pd: int, pi: int)
    requires pi == pk * pd
    ensures pk * ps * (hi * pd) == (hi * ps) * pi
  {
    calc {
      pk * ps * (hi * pd);
      { Associate(pk, ps, hi * pd); Associate(ps, hi, pd); Commute(ps, hi); }
      pk * ((hi * ps) * pd);
      { Commute(pk, (hi * ps) * pd); Associate(hi * ps, pd, pk); Commute(pd, pk); }
      (hi * ps) * pi;
    }
  }

  lemma LowTerm(pk: int, ps: int, c: int, low: int, lo: int, pd: int, pi: int, whole: bool)
    requires ps * c == BASE && pi == pk * (BASE * pd) && (whole ==> low == 0 && lo == 0) && (!whole ==> lo == low * c)
    ensures pk * ps * (lo * pd) == low * pi
  {
    if !whole {
      calc {
        pk * ps * (low * c * pd);
        { Associate(pk, ps, low * c * pd); Associate(ps, low * c, pd); Associate(ps, low, c); }
        { Commute(ps, low); Associate(low, ps, c); }
        pk * ((low * BASE) * pd);
        { Associate(low, BASE, pd); Associate(pk, low, BASE * pd); Commute(pk, low); Associate(low, pk, BASE * pd); }
        low * pi;
      }
    }
  }

  lemma RightEnd(a: seq<nat>, pn: seq<nat>, k: nat, s: nat, rest: nat)
    requires RightDone(a, pn, k, s, WIDTH, rest)
    ensures Limbed(pn) && Value(pn) == Value(a) / (PowB(k) * Pow2(s))
  {
    hide PowB, Value, Pow2;
    assert a[..WIDTH] == a;
    var d := PowB(k) * Pow2(s);
    MultiplyGrows(1, PowB(k), Pow2(s));
    Commute(d, Value(pn));
    RemainderIs(Value(a), Value(pn), rest, d);
  }

  // ---------------------------------------------------------------- division

  lemma ModulusIs()
    ensures Modulus() == Pow2(256)
  {
    Pow2Limbs(8);
  }

  /** Setting a bit of a number whose lower bits are clear. */
  method SetBit(pn: array<nat>, shift: nat)
    requires pn.Length == WIDTH && Limbed(pn[..]) && shift < 256 && Value(pn[..]) % Pow2(shift + 1) == 0
    modifies pn
    ensures Limbed(pn[..]) && Value(pn[..]) == old(Value(pn[..])) + Pow2(shift)
  {
    hide PowB, Value, Pow2;
    ghost var was := pn[..];
    var k, s := shift / 32, shift % 32;
    LimbClear(was, k, s);
    LimbRoom(was[k], s);
    pn[k] := Or(pn[k], Pow2(s));
    assert pn[..] == was[k := was[k] + Pow2(s)];
    ValueUpdate(was, k, was[k] + Pow2(s));
    Pow2Split(shift);
    Commute(PowB(k), Pow2(s));
  }

  /** The bit is clear in its limb, and everything below it. */
  lemma LimbClear(pn: seq<nat>, k: nat, s: nat)
    requires |pn| == WIDTH && Limbed(pn) && k < WIDTH && s < 32 && Value(pn) % Pow2(32 * k + s + 1) == 0
    ensures pn[k] % Pow2(s + 1) == 0
  {
    hide PowB, Value, Pow2;
    var p, c, d := PowB(k), Pow2(s + 1), Pow2(31 - s);
    Pow2Limbs(k);
    Pow2Add(32 * k, s + 1);
    assert Pow2(32 * k + (s + 1)) == p * c;
    ValueSplit(pn, k);
    ValueHead(pn[k..]);
    ValueBound(pn[..k]);
    var upper := Value(pn[k..]);
    var q := Value(pn) / (p * c);
    assert Value(pn) == q * (p * c);
    Associate(q, c, p);
    Commute(c, p);
    RemainderIs(Value(pn), q * c, 0, p);
    Commute(p, upper);
    RemainderIs(Value(pn), upper, Value(pn[..k]), p);
    Pow2Add(s + 1, 31 - s);
    Pow2Limb();
    var rest := Value(pn[k..][1..]);
    assert upper == pn[k] + BASE * rest && upper == q * c;
    Associate(d, c, rest);
    Commute(c, d);
    assert pn[k] == (q - d * rest) * c by {
      var e: int := d * rest;
      Distribute(q, -e, c);
      Associate(d, rest, c);
      Commute(rest, c);
    }
    RemainderIs(pn[k], q - d * rest, 0, c);
  }

  lemma Pow2Double(s: nat)
    ensures Pow2(s + 1) == 2 * Pow2(s)
  {
  }

  lemma LimbRoom(x: nat, s: nat)
    requires x < BASE && s < 32 && x % Pow2(s + 1) == 0
    ensures Or(x, Pow2(s)) == x + Pow2(s) < BASE
  {
    hide Pow2, Or;
    Pow2Double(s);
    OrAdds(Pow2(s), x, s + 1);
    Pow2Add(s + 1, 31 - s);
    Pow2Limb();
    RoomAbove(x, Pow2(s + 1), Pow2(31 - s));
  }

  /** A multiple of c below c*d leaves room for c more. */
  lemma RoomAbove(x: nat, c: nat, d: nat)
    requires c > 0 && x < c * d && x % c == 0
    ensures x + c <= c * d
  {
    var q := x / c;
    assert x == q * c;
    QuotientBelow(x, c, d);
    MultiplyGrows(q + 1, d, c);
    Distribute(q, 1, c);
    Commute(c, d);
  }

  /** The long division so far: the quotient bits above `shift` are found. */
  ghost predicate Dividing(n: nat, b: nat, num: nat, quotient: nat, shift: int) {
    && -1 <= shift && b > 0
    && n == quotient * b + num
    && num < b * Pow2(shift + 1) && quotient % Pow2(shift + 1) == 0
  }

  /** Long division by shifting and subtracting; fails only for a zero divisor. */
  method Divide(pn: array<nat>, b: seq<nat>) returns (ok: bool)
    requires pn.Length == WIDTH == |b| && Limbed(pn[..]) && Limbed(b)
    modifies pn
    ensures Limbed(pn[..])
    ensures ok <==> Value(b) != 0
    ensures Value(pn[..]) == if ok then old(Value(pn[..])) / Value(b) else 0
  {
    hide PowB, Value, Pow2, Dividing, HasBits;
    ghost var n := Value(pn[..]);
    var div := new nat[WIDTH](i requires 0 <= i < WIDTH => b[i]);
    var num := new nat[WIDTH](i requires 0 <= i < WIDTH reads pn => pn[i]);
    assert div[..] == b && num[..] == pn[..];
    Clear(pn);
    var numBits := Bits(num[..]);
    var divBits := Bits(div[..]);
    ZeroBits(Value(b), divBits);
    if divBits == 0 { return false; }
    ok := true;
    if divBits > numBits {
      FewerBits(n, numBits, Value(b), divBits);
      return;
    }
    var shift := numBits - divBits;
    AlignFits(n, numBits, Value(b), divBits);
    ShiftLeft(div, shift);
    while shift >= 0
      invariant -1 <= shift < 256 && Limbed(pn[..]) && Limbed(num[..]) && Limbed(div[..])
      invariant Dividing(n, Value(b), Value(num[..]), Value(pn[..]), shift)
      invariant shift >= 0 ==> Value(div[..]) == Value(b) * Pow2(shift)
    {
      shift := DivideBit(pn, num, div, b, n, shift);
    }
    DivideEnd(n, Value(b), Value(num[..]), Value(pn[..]));
  }

  /** One bit of the quotient. */
  method DivideBit(pn: array<nat>, num: array<nat>, div: array<nat>, ghost b: seq<nat>, ghost n: nat, shift: int)
    returns (next: int)
    requires pn.Length == num.Length == div.Length == WIDTH && pn != num && pn != div && num != div
    requires 0 <= shift < 256 && Limbed(pn[..]) && Limbed(num[..]) && Limbed(div[..])
    requires Dividing(n, Value(b), Value(num[..]), Value(pn[..]), shift)
    requires Value(div[..]) == Value(b) * Pow2(shift)
    modifies pn, num, div
    ensures next == shift - 1 && Limbed(pn[..]) && Limbed(num[..]) && Limbed(div[..])
    ensures Dividing(n, Value(b), Value(num[..]), Value(pn[..]), next)
    ensures next >= 0 ==> Value(div[..]) == Value(b) * Pow2(next)
  {
    hide PowB, Value, Pow2, Dividing;
    var order := CompareTo(num[..], div[..]);
    DivideStep(n, Value(b), Value(num[..]), Value(pn[..]), shift);
    if order >= 0 {
      ValueBound(num[..]);
      ghost var left := Value(num[..]) - Value(div[..]);
      Subtract(num, div[..]);
      RemainderIs(left, 0, left, Modulus());
      SetBit(pn, shift);
    }
    ShiftRight(div, 1);
    HalfDivisor(Value(b), shift);
    return shift - 1;
  }

  lemma ZeroBits(v: nat, n: nat)
    requires HasBits(v, n)
    ensures v == 0 <==> n == 0
  {
  }

  lemma FewerBits(n: nat, numBits: nat, b: nat, divBits: nat)
    requires HasBits(n, numBits) && HasBits(b, divBits) && divBits > numBits && b > 0
    ensures n / b == 0
  {
    hide Pow2;
    if n > 0 { Pow2Grows(numBits, divBits - 1); }
    RemainderIs(n, 0, n, b);
  }

  /** Aligned, the divisor still fits and the dividend is less than twice as large. */
  lemma AlignFits(n: nat, numBits: nat, b: nat, divBits: nat)
    requires HasBits(n, numBits) && HasBits(b, divBits) && 0 < divBits <= numBits <= 256
    ensures var shift := numBits - divBits;
      && b * Pow2(shift) % Modulus() == b * Pow2(shift)
      && Dividing(n, b, n, 0, shift)
  {
    hide Pow2, PowB;
    var shift := numBits - divBits;
    Pow2Add(divBits, shift);
    MultiplyGrows(b + 1, Pow2(divBits), Pow2(shift));
    Distribute(b, 1, Pow2(shift));
    Pow2Grows(numBits, 256);
    ModulusIs();
    RemainderIs(b * Pow2(shift), 0, b * Pow2(shift), Modulus());
    Pow2Add(divBits - 1, shift + 1);
    MultiplyGrows(Pow2(divBits - 1), b, Pow2(shift + 1));
    assert n < b * Pow2(shift + 1);
    RemainderIs(0, 0, 0, Pow2(shift + 1));
  }

  lemma DivideStep(n: nat, b: nat, num: nat, quotient: nat, shift: nat)
    requires Dividing(n, b, num, quotient, shift)
    ensures quotient % Pow2(shift + 1) == 0
    ensures num < b * Pow2(shift) ==> Dividing(n, b, num, quotient, shift - 1)
    ensures num >= b * Pow2(shift) ==> Dividing(n, b, num - b * Pow2(shift), quotient + Pow2(shift), shift - 1)
  {
    var p := Pow2(shift);
    assert Pow2(shift + 1) == 2 * p;
    var q := quotient / (2 * p);
    assert quotient == q * (2 * p);
    Associate(q, 2, p);
    RemainderIs(quotient, q * 2, 0, p);
    Distribute(q * 2, 1, p);
    RemainderIs(quotient + p, q * 2 + 1, 0, p);
    Distribute(quotient, p, b);
    Commute(p, b);
    assert b * (2 * p) == 2 * (b * p) by { Associate(b, 2, p); Commute(b, 2); Associate(2, b, p); }
  }

  lemma HalfDivisor(b: nat, shift: nat)
    ensures shift > 0 ==> b * Pow2(shift) / Pow2(1) == b * Pow2(shift - 1)
  {
    if shift > 0 {
      var p := Pow2(shift - 1);
      assert Pow2(1) == 2;
      assert b * (2 * p) == (b * p) * 2 by { Associate(b, 2, p); Commute(b, 2); Associate(2, b, p); }
      RemainderIs(b * Pow2(shift), b * p, 0, 2);
    }
  }

  lemma DivideEnd(n: nat, b: nat, num: nat, quotient: nat)
    requires Dividing(n, b, num, quotient, -1)
    ensures quotient == n / b
  {
    RemainderIs(n, quotient, num, b);
  }
}
