/** Numbers as sequences of 32-bit limbs, least significant first. */
module Limbs {
  import opened Arithmetic

  const BASE: nat := TWO_32
  const WIDTH: nat := 8

  function PowB(i: nat): (p: nat)
    ensures p >= 1
  {
    if i == 0 then 1 else BASE * PowB(i - 1)
  }

  function Value(s: seq<nat>): nat {
    if s == [] then 0 else s[0] + BASE * Value(s[1..])
  }

  predicate Limbed(s: seq<nat>) {
    forall i :: 0 <= i < |s| ==> s[i] < BASE
  }

  /** The first value that does not fit. */
  function Modulus(): nat { PowB(WIDTH) }

  lemma {:induction false} PowBAdd(i: nat, j: nat)
    ensures PowB(i + j) == PowB(i) * PowB(j)
    decreases i
  {
    if i > 0 {
      PowBAdd(i - 1, j);
      Associate(BASE, PowB(i - 1), PowB(j));
    }
  }

  // ---------------------------------------------------------------- values

  lemma {:induction false} ValueAppend(s: seq<nat>, t: seq<nat>)
    ensures Value(s + t) == Value(s) + PowB(|s|) * Value(t)
    decreases |s|
  {
    if s == [] {
      assert s + t == t;
    } else {
      ValueAppend(s[1..], t);
      assert (s + t)[1..] == s[1..] + t;
      Distribute(Value(s[1..]), PowB(|s| - 1) * Value(t), BASE);
      Associate(BASE, PowB(|s| - 1), Value(t));
    }
  }

  lemma ValueSplit(s: seq<nat>, i: nat)
    requires i <= |s|
    ensures Value(s) == Value(s[..i]) + PowB(i) * Value(s[i..])
  {
    hide Value, PowB;
    ValueAppend(s[..i], s[i..]);
    assert s[..i] + s[i..] == s;
  }

  lemma ValueNext(s: seq<nat>, i: nat)
    requires i < |s|
    ensures Value(s[..i + 1]) == Value(s[..i]) + PowB(i) * s[i]
  {
    ValueAppend(s[..i], [s[i]]);
    assert s[..i] + [s[i]] == s[..i + 1];
    assert Value([s[i]]) == s[i] by { assert [s[i]][1..] == []; }
  }

  lemma {:induction false} ValueBound(s: seq<nat>)
    requires Limbed(s)
    ensures Value(s) < PowB(|s|)
    decreases |s|
  {
    if s != [] {
      ValueBound(s[1..]);
      var v, p := Value(s[1..]), PowB(|s| - 1);
      assert BASE * v <= BASE * (p - 1) by { Distribute(v, p - 1 - v, BASE); }
    }
  }

  lemma ValueUpdate(s: seq<nat>, k: nat, x: nat)
    requires k < |s|
    ensures Value(s[k := x]) == Value(s) + (x - s[k]) * PowB(k)
  {
    hide PowB, Value;
    var t := s[k := x];
    ValueSplit(s, k);
    ValueSplit(t, k);
    ValueHead(s[k..]);
    ValueHead(t[k..]);
    assert t[..k] == s[..k] && t[k..][1..] == s[k..][1..];
    UpdateSum(PowB(k), s[k], x, BASE * Value(s[k..][1..]));
  }

  lemma ValueHead(s: seq<nat>)
    requires s != []
    ensures Value(s) == s[0] + BASE * Value(s[1..])
  {
  }

  lemma UpdateSum(p: int, d: int, x: int, rest: int)
    ensures p * (x + rest) == p * (d + rest) + (x - d) * p
  {
    Distribute(x - d, d + rest, p);
  }

  lemma {:induction false} ValueZeros(n: nat)
    ensures Value(seq(n, _ => 0)) == 0
    decreases n
  {
    if n > 0 {
      assert seq(n, _ => 0)[1..] == seq(n - 1, _ => 0);
      ValueZeros(n - 1);
    }
  }

  /** Equal values have equal limbs. */
  lemma {:induction false} ValueInjective(s: seq<nat>, t: seq<nat>)
    requires |s| == |t| && Limbed(s) && Limbed(t) && Value(s) == Value(t)
    ensures s == t
    decreases |s|
  {
    if s != [] {
      RemainderIs(Value(s), Value(s[1..]), s[0], BASE);
      RemainderIs(Value(t), Value(t[1..]), t[0], BASE);
      ValueInjective(s[1..], t[1..]);
    }
  }

  // ---------------------------------------------------------------- addition

  /** One limb of a sum: what stays and what is carried. */
  lemma CarryOut(n: nat)
    ensures n == n % BASE + BASE * (n / BASE) && n % BASE < BASE
  {
  }

  method Add(a: array<nat>, b: seq<nat>)
    requires a.Length == WIDTH == |b| && Limbed(a[..]) && Limbed(b)
    modifies a
    ensures Limbed(a[..]) && Value(a[..]) == (old(Value(a[..])) + Value(b)) % Modulus()
  {
    hide PowB;
    ghost var was := a[..];
    var carry := 0;
    var i := 0;
    PowB0();
    while i < WIDTH
      invariant 0 <= i <= WIDTH && 0 <= carry <= 1 && Limbed(a[..])
      invariant forall j :: i <= j < WIDTH ==> a[j] == was[j]
      invariant Value(a[..][..i]) + PowB(i) * carry == Value(was[..i]) + Value(b[..i])
    {
      ghost var before := a[..];
      var n := carry + a[i] + b[i];
      CarryOut(n);
      a[i] := n % BASE;
      AddStep(before, was, b, a[..], carry, i);
      carry := n / BASE;
      i := i + 1;
    }
    assert a[..][..i] == a[..] && was[..i] == was && b[..i] == b;
    ValueBound(a[..]);
    RemainderIs(Value(was) + Value(b), carry, Value(a[..]), Modulus());
  }

  lemma PowB0()
    ensures PowB(0) == 1 && forall s: seq<nat> :: Value(s[..0]) == 0
  {
  }

  lemma PowBNext(i: nat)
    ensures PowB(i + 1) == BASE * PowB(i)
  {
  }

  lemma AddStep(before: seq<nat>, was: seq<nat>, b: seq<nat>, after: seq<nat>, carry: nat, i: nat)
    requires |before| == |was| == |b| == |after| && i < |b| && before[i] == was[i]
    requires Value(before[..i]) + PowB(i) * carry == Value(was[..i]) + Value(b[..i])
    requires var n := carry + was[i] + b[i]; after == before[i := n % BASE]
    ensures Value(after[..i + 1]) + PowB(i + 1) * ((carry + was[i] + b[i]) / BASE) ==
      Value(was[..i + 1]) + Value(b[..i + 1])
  {
    hide PowB, Value;
    var n := carry + was[i] + b[i];
    CarryOut(n);
    ValueNext(after, i);
    ValueNext(was, i);
    ValueNext(b, i);
    assert after[..i] == before[..i];
    PowBNext(i);
    var p := PowB(i);
    Associate(BASE, p, n / BASE);
    Distribute(n % BASE, BASE * (n / BASE), p);
    Distribute(carry + was[i], b[i], p);
    Distribute(carry, was[i], p);
    Associate(p, BASE, n / BASE);
  }

  // ---------------------------------------------------------------- complement, increment, subtraction

  function Flip(s: seq<nat>): seq<nat>
    requires Limbed(s)
  {
    seq(|s|, i requires 0 <= i < |s| => BASE - 1 - s[i])
  }

  lemma {:induction false} FlipValue(s: seq<nat>)
    requires Limbed(s)
    ensures Limbed(Flip(s)) && Value(Flip(s)) == PowB(|s|) - 1 - Value(s)
    decreases |s|
  {
    if s != [] {
      FlipValue(s[1..]);
      assert Flip(s)[1..] == Flip(s[1..]);
      var v, p := Value(s[1..]), PowB(|s| - 1);
      Distribute(p - 1 - v, v, BASE);
    }
  }

  /** The bitwise complement. */
  method Complement(a: seq<nat>) returns (r: array<nat>)
    requires |a| == WIDTH && Limbed(a)
    ensures fresh(r) && r.Length == WIDTH && Limbed(r[..])
    ensures Value(r[..]) == Modulus() - 1 - Value(a)
  {
    r := new nat[WIDTH](_ => 0);
    var i := 0;
    while i < WIDTH
      invariant 0 <= i <= WIDTH && forall j :: 0 <= j < i ==> r[j] == BASE - 1 - a[j]
    {
      r[i] := BASE - 1 - a[i];
      i := i + 1;
    }
    assert r[..] == Flip(a);
    FlipValue(a);
  }

  /** Adds one, with wrap-around. */
  method Increment(a: array<nat>)
    requires a.Length == WIDTH && Limbed(a[..])
    modifies a
    ensures Limbed(a[..]) && Value(a[..]) == (old(Value(a[..])) + 1) % Modulus()
  {
    hide PowB, Value;
    ghost var was := a[..];
    var i := 0;
    var going := true;
    PowB0();
    while going
      invariant 0 <= i < WIDTH && Limbed(a[..])
      invariant going ==> Value(a[..]) + PowB(i) == Value(was) + 1
      invariant !going ==> Value(a[..]) == Value(was) + 1 || (Value(a[..]) + Modulus() == Value(was) + 1)
      decreases WIDTH - i, going
    {
      ghost var before := a[..];
      var x := if a[i] + 1 == BASE then 0 else a[i] + 1;
      a[i] := x;
      ValueUpdate(before, i, x);
      assert a[..] == before[i := x];
      BumpStep(before[i], x, i);
      if x == 0 && i < WIDTH - 1 { i := i + 1; } else { going := false; }
    }
    ValueBound(a[..]);
    ValueBound(was);
    if Value(a[..]) == Value(was) + 1 {
      RemainderIs(Value(was) + 1, 0, Value(a[..]), Modulus());
    } else {
      RemainderIs(Value(was) + 1, 1, Value(a[..]), Modulus());
    }
  }

  lemma BumpStep(y: nat, x: nat, i: nat)
    requires y < BASE && x == if y + 1 == BASE then 0 else y + 1
    ensures x != 0 ==> (x - y) * PowB(i) == PowB(i)
    ensures x == 0 ==> (x - y) * PowB(i) == PowB(i) - PowB(i + 1)
  {
    hide PowB;
    PowBNext(i);
    if x == 0 { Distribute(1, 0 - BASE, PowB(i)); }
  }

  /** Subtracts by adding the negation. */
  method Subtract(a: array<nat>, b: seq<nat>)
    requires a.Length == WIDTH == |b| && Limbed(a[..]) && Limbed(b)
    modifies a
    ensures Limbed(a[..]) && Value(a[..]) == (old(Value(a[..])) - Value(b)) % Modulus()
  {
    hide PowB, Value;
    ghost var was := a[..];
    var neg := Complement(b);
    Increment(neg);
    Add(a, neg[..]);
    ValueBound(b);
    NegationCancels(Value(was), Value(b), Modulus());
  }

  lemma NegationCancels(x: nat, y: nat, m: nat)
    requires y < m
    ensures (x + ((m - 1 - y) + 1) % m) % m == (x - y) % m
  {
    var r, q := (x - y) % m, (x - y) / m;
    assert x - y == q * m + r;
    if y == 0 {
      RemainderIs(m, 1, 0, m);
    } else {
      RemainderIs(m - y, 0, m - y, m);
      Distribute(q, 1, m);
      RemainderIs(x + (m - y), q + 1, r, m);
    }
  }

  // ---------------------------------------------------------------- multiplication

  method MultiplySmall(a: array<nat>, b32: nat)
    requires a.Length == WIDTH && Limbed(a[..]) && b32 < BASE
    modifies a
    ensures Limbed(a[..]) && Value(a[..]) == old(Value(a[..])) * b32 % Modulus()
  {
    hide PowB, Value;
    ghost var was := a[..];
    var carry := 0;
    var i := 0;
    NoLimbs(was, b32);
    PowB0();
    while i < WIDTH
      invariant 0 <= i <= WIDTH && 0 <= carry < BASE && Limbed(a[..])
      invariant forall j :: i <= j < WIDTH ==> a[j] == was[j]
      invariant Value(a[..][..i]) + PowB(i) * carry == b32 * Value(was[..i])
    {
      ghost var before := a[..];
      ProductFits(b32, a[i], carry, 0);
      var n := carry + b32 * a[i];
      a[i] := n % BASE;
      SmallStep(before, was, b32, a[..], carry, i);
      carry := n / BASE;
      i := i + 1;
    }
    assert a[..][..i] == a[..] && was[..i] == was;
    ValueBound(a[..]);
    assert Modulus() == PowB(WIDTH);
    Commute(PowB(WIDTH), carry);
    Commute(b32, Value(was));
    RemainderIs(Value(was) * b32, carry, Value(a[..]), Modulus());
  }

  /** A product of limbs with two more limbs added fits in 64 bits, so the carry is a limb. */
  lemma ProductFits(x: nat, y: nat, c: nat, d: nat)
    requires x < BASE && y < BASE && c < BASE && d < BASE
    ensures 0 <= c + d + x * y < BASE * BASE && (c + d + x * y) / BASE < BASE
  {
    ProductBelow(x, y, c, d, BASE);
    QuotientBelow(c + d + x * y, BASE, BASE);
  }

  lemma ProductBelow(x: nat, y: nat, c: nat, d: nat, base: nat)
    requires x < base && y < base && c < base && d < base
    ensures 0 <= x * y && c + d + x * y < base * base
  {
    MultiplyGrows(x, base - 1, y);
    MultiplyGrows(y, base - 1, base - 1);
    Commute(y, base - 1);
    Distribute(base - 1, 1, base - 1);
    Distribute(base - 1, 1, base);
  }

  lemma SmallStep(before: seq<nat>, was: seq<nat>, b32: nat, after: seq<nat>, carry: nat, i: nat)
    requires |before| == |was| == |after| && i < |was| && before[i] == was[i]
    requires Value(before[..i]) + PowB(i) * carry == b32 * Value(was[..i])
    requires after == before[i := (carry + b32 * was[i]) % BASE]
    ensures Value(after[..i + 1]) + PowB(i + 1) * ((carry + b32 * was[i]) / BASE) == b32 * Value(was[..i + 1])
  {
    hide PowB, Value;
    var n := carry + b32 * was[i];
    CarryOut(n);
    ValueNext(after, i);
    ValueNext(was, i);
    assert after[..i] == before[..i];
    PowBNext(i);
    var p := PowB(i);
    Distribute(n % BASE, BASE * (n / BASE), p);
    Distribute(carry, b32 * was[i], p);
    Associate(p, BASE, n / BASE);
    Associate(p, b32, was[i]);
    Associate(b32, p, was[i]);
    Distribute(Value(was[..i]), p * was[i], b32);
  }

  predicate Zero(s: seq<nat>) {
    forall i :: 0 <= i < |s| ==> s[i] == 0
  }

  /** Adds x times b, shifted by j limbs, dropping what lies beyond the last limb.  The factor may be the
      number added to, if it is zero: it then stays so. */
  method MultiplyRow(pn: array<nat>, x: nat, b: array<nat>, j: nat)
    requires pn.Length == WIDTH == b.Length && Limbed(pn[..]) && Limbed(b[..]) && x < BASE && j < WIDTH
    requires pn == b ==> Zero(b[..])
    modifies pn
    ensures Limbed(pn[..]) && b[..] == old(b[..])
    ensures exists carry: nat ::
      Value(pn[..]) + PowB(WIDTH) * carry == old(Value(pn[..])) + x * PowB(j) * Value(b[..][..WIDTH - j])
  {
    hide PowB, Value;
    ghost var was, factor := pn[..], b[..];
    var carry := 0;
    var i := 0;
    NoLimbs(factor, x * PowB(j));
    while i + j < WIDTH
      invariant 0 <= i <= WIDTH - j && 0 <= carry < BASE && Limbed(pn[..])
      invariant b[..] == factor && (pn == b ==> carry == 0)
      invariant Value(pn[..]) + PowB(i + j) * carry == Value(was) + x * PowB(j) * Value(factor[..i])
    {
      ghost var before := pn[..];
      ProductFits(x, b[i], carry, pn[i + j]);
      RowStep(was, before, x, factor, carry, i, j);
      var n: nat := carry + pn[i + j] + x * b[i];
      assert pn == b ==> n == 0;
      var limb: nat := n % BASE;
      pn[i + j] := limb;
      assert pn[..] == before[i + j := limb];
      carry := n / BASE;
      i := i + 1;
    }
  }

  lemma NoLimbs(b: seq<nat>, y: nat)
    ensures Value(b[..0]) == 0 && y * Value(b[..0]) == 0
  {
  }

  lemma RowStep(was: seq<nat>, before: seq<nat>, x: nat, b: seq<nat>, carry: nat, i: nat, j: nat)
    requires i < |b| && i + j < |before|
    requires Value(before) + PowB(i + j) * carry == Value(was) + x * PowB(j) * Value(b[..i])
    ensures var n := carry + before[i + j] + x * b[i];
      Value(before[i + j := n % BASE]) + PowB(i + j + 1) * (n / BASE) == Value(was) + x * PowB(j) * Value(b[..i + 1])
  {
    hide PowB, Value;
    var k, n := i + j, carry + before[i + j] + x * b[i];
    CarryOut(n);
    ValueUpdate(before, k, n % BASE);
    ValueNext(b, i);
    PowBNext(k);
    PowBAdd(i, j);
    RowProduct(x, PowB(j), PowB(i), b[i], PowB(k));
    RowSum(Value(before), Value(was), PowB(k), carry, before[k], x * b[i], n % BASE, n / BASE,
           x * PowB(j), Value(b[..i]), PowB(i) * b[i]);
  }

  lemma RowSum(vb: int, vw: int, p: int, carry: int, old_: int, xy: int, lo: int, hi: int, q: int, vi: int, py: int)
    requires vb + p * carry == vw + q * vi && carry + old_ + xy == lo + BASE * hi && q * py == p * xy
    ensures vb + (lo - old_) * p + (BASE * p) * hi == vw + q * (vi + py)
  {
    Distribute(vi, py, q);
    Associate(BASE, p, hi);
    assert BASE * (p * hi) == (BASE * hi) * p by { Associate(BASE, hi, p); }
    Distribute(lo - old_, BASE * hi, p);
    Distribute(carry, xy, p);
  }

  lemma RowProduct(x: int, pj: int, pi: int, y: int, p: int)
    requires p == pi * pj
    ensures x * pj * (pi * y) == p * (x * y)
  {
    Associate(x * pj, pi, y);
    Associate(x, pj, pi);
    Associate(p, x, y);
    assert x * (pj * pi) == p * x;
  }

  /** The product, with what does not fit dropped.  A number cannot be multiplied by itself in place: it is
      cleared before it is read as the factor, so the result is zero, which is the square only of a
      multiple of the root of the modulus. */
  method Multiply(pn: array<nat>, b: array<nat>)
    requires pn.Length == WIDTH == b.Length && Limbed(pn[..]) && Limbed(b[..])
    modifies pn
    ensures Limbed(pn[..])
    ensures pn != b ==> b[..] == old(b[..])
    ensures pn != b ==> Value(pn[..]) == old(Value(pn[..])) * Value(b[..]) % Modulus()
    ensures pn == b ==> Value(pn[..]) == 0
    ensures Value(pn[..]) == old(Value(pn[..]) * Value(b[..])) % Modulus() <==>
      pn != b || old(Value(pn[..])) % PowB(WIDTH / 2) == 0
  {
    hide PowB, Value;
    var a := pn[..];
    Clear(pn);
    ghost var factor := b[..];
    if pn == b { SquareLost(Value(a)); }
    var j := 0;
    ghost var q: int := 0;
    NoLimbs(a, Value(factor));
    Commute(Value(factor), Value(a[..0]));
    while j < WIDTH
      invariant 0 <= j <= WIDTH && Limbed(pn[..]) && b[..] == factor
      invariant Value(pn[..]) + Modulus() * q == Value(a[..j]) * Value(factor)
    {
      ghost var before := Value(pn[..]);
      MultiplyRow(pn, a[j], b, j);
      ghost var carry: nat :|
        Value(pn[..]) + PowB(WIDTH) * carry == before + a[j] * PowB(j) * Value(factor[..WIDTH - j]);
      MultiplyStep(a, factor, j, before, Value(pn[..]), q, carry);
      q := q + carry + a[j] * Value(factor[WIDTH - j..]);
      j := j + 1;
    }
    assert a[..j] == a;
    ValueBound(pn[..]);
    Commute(Modulus(), q);
    RemainderIs(Value(a) * Value(factor), q, Value(pn[..]), Modulus());
  }

  /** Only the multiples of 2^128 have a square that is zero modulo 2^256. */
  lemma SquareLost(v: nat)
    ensures v * v % Modulus() == 0 <==> v % PowB(WIDTH / 2) == 0
  {
    hide PowB, Pow2;
    var r := PowB(WIDTH / 2);
    Pow2Limbs(WIDTH / 2);
    Pow2Limbs(WIDTH);
    PowBAdd(WIDTH / 2, WIDTH / 2);
    if v % r == 0 {
      SquareOfMultiple(v / r, r);
      RemainderIs(v * v, (v / r) * (v / r), 0, Modulus());
    } else if v * v % Modulus() == 0 {
      var w := RootOfMultiple(v, 128, v * v / Modulus());
      RemainderIs(v, w, 0, r);
    }
  }

  lemma SquareOfMultiple(w: nat, r: nat)
    ensures (w * r) * (w * r) == (w * w) * (r * r)
  {
    Associate(w, r, w * r);
    Associate(r, w, r);
    Commute(r, w);
    Associate(w, r, r);
    Associate(w, w, r * r);
  }

  lemma {:induction false} RootOfMultiple(v: nat, n: nat, m: nat) returns (w: nat)
    requires v * v == m * Pow2(2 * n)
    ensures v == w * Pow2(n)
    decreases n
  {
    if n == 0 {
      w := v;
    } else {
      var p := Pow2(2 * n - 2);
      assert Pow2(2 * n) == 4 * p;
      HalfOfRoot(v, m, p);
      w := RootOfMultiple(v / 2, n - 1, m);
      Associate(2, w, Pow2(n - 1));
      Commute(2, w);
      Associate(w, 2, Pow2(n - 1));
    }
  }

  lemma HalfOfRoot(v: nat, m: nat, p: nat)
    requires v * v == m * (4 * p)
    ensures v == 2 * (v / 2) && (v / 2) * (v / 2) == m * p
  {
    var u := v / 2;
    Associate(m, 4, p);
    Commute(m, 4);
    Associate(4, m, p);
    EvenSquare(u);
    OddSquare(u);
  }

  lemma EvenSquare(u: nat)
    ensures (2 * u) * (2 * u) == 4 * (u * u)
  {
    Associate(2, u, 2 * u);
    Associate(u, 2, u);
    Commute(u, 2);
    Associate(2, u, u);
  }

  lemma OddSquare(u: nat)
    ensures (2 * u + 1) * (2 * u + 1) == 4 * (u * u + u) + 1
  {
    EvenSquare(u);
    Distribute(2 * u, 1, 2 * u + 1);
    Distribute(2 * u, 1, 2 * u);
  }

  /** One squared in place is zero. */
  method SquareOfOne() returns (pn: array<nat>, ghost x: nat)
    ensures x == 1 && x * x % Modulus() == 1
    ensures fresh(pn) && pn.Length == WIDTH && Value(pn[..]) == 0
  {
    hide Value;
    pn := new nat[WIDTH];
    Clear(pn);
    ghost var zeros := pn[..];
    pn[0] := 1;
    x := Value(pn[..]);
    ValueUpdate(zeros, 0, 1);
    assert pn[..] == zeros[0 := 1];
    assert Modulus() == BASE * PowB(WIDTH - 1);
    Multiply(pn, pn);
  }

  method Clear(pn: array<nat>)
    modifies pn
    ensures Limbed(pn[..]) && Value(pn[..]) == 0 && Zero(pn[..])
  {
    var i := 0;
    while i < pn.Length
      invariant 0 <= i <= pn.Length && forall j :: 0 <= j < i ==> pn[j] == 0
    {
      pn[i] := 0;
      i := i + 1;
    }
    assert pn[..] == seq(pn.Length, _ => 0);
    ValueZeros(pn.Length);
  }

  lemma MultiplyStep(a: seq<nat>, b: seq<nat>, j: nat, before: int, after: int, q: int, carry: int)
    requires j < |a| && |b| == WIDTH && j < WIDTH
    requires before + Modulus() * q == Value(a[..j]) * Value(b)
    requires after + PowB(WIDTH) * carry == before + a[j] * PowB(j) * Value(b[..WIDTH - j])
    ensures after + Modulus() * (q + carry + a[j] * Value(b[WIDTH - j..])) == Value(a[..j + 1]) * Value(b)
  {
    hide PowB, Value;
    var x, p, m := a[j], PowB(j), Modulus();
    var lo, rest := Value(b[..WIDTH - j]), Value(b[WIDTH - j..]);
    ValueNext(a, j);
    ValueSplit(b, WIDTH - j);
    PowBAdd(j, WIDTH - j);
    assert m == p * PowB(WIDTH - j);
    Distribute(Value(a[..j]), p * x, Value(b));
    HighPart(x, p, PowB(WIDTH - j), lo, rest, m);
    Distribute(q + carry, x * rest, m);
    Distribute(q, carry, m);
  }

  /** What a row leaves out is a multiple of the modulus. */
  lemma HighPart(x: int, p: int, h: int, lo: int, rest: int, m: int)
    requires m == p * h
    ensures (p * x) * (lo + h * rest) == x * p * lo + m * (x * rest)
  {
    Commute(p, x);
    Distribute(lo, h * rest, x * p);
    Associate(x * p, h, rest);
    Associate(x, p, h);
    Associate(m, x, rest);
    Commute(x, m);
  }

  // ---------------------------------------------------------------- order

  lemma Dominates(a: seq<nat>, b: seq<nat>, i: nat)
    requires |a| == |b| && i < |a| && Limbed(a) && Limbed(b) && a[i] < b[i] && a[i + 1..] == b[i + 1..]
    ensures Value(a) < Value(b)
  {
    hide PowB, Value;
    ValueSplit(a, i);
    ValueSplit(b, i);
    ValueHead(a[i..]);
    ValueHead(b[i..]);
    assert a[i..][1..] == a[i + 1..] && b[i..][1..] == b[i + 1..];
    ValueBound(a[..i]);
    var p, rest := PowB(i), BASE * Value(a[i + 1..]);
    Distribute(a[i] + rest, 1, p);
    MultiplyGrows(a[i] + rest + 1, b[i] + rest, p);
  }

  /** Below, equal or above: minus one, zero or one. */
  method CompareTo(a: seq<nat>, b: seq<nat>) returns (r: int)
    requires |a| == |b| == WIDTH && Limbed(a) && Limbed(b)
    ensures r == if Value(a) < Value(b) then -1 else if Value(a) == Value(b) then 0 else 1
  {
    hide Value;
    var i := WIDTH;
    while i > 0
      invariant 0 <= i <= WIDTH && a[i..] == b[i..]
    {
      i := i - 1;
      if a[i] < b[i] {
        Dominates(a, b, i);
        return -1;
      }
      if a[i] > b[i] {
        Dominates(b, a, i);
        return 1;
      }
    }
    assert a == b by { assert a[0..] == a && b[0..] == b; }
    return 0;
  }

  // ---------------------------------------------------------------- bits

  lemma Pow2Limb()
    ensures Pow2(32) == BASE
  {
    assert Pow2(8) == 256;
    Pow2Add(8, 8);
    Pow2Add(16, 16);
  }

  lemma {:induction false} Pow2Limbs(i: nat)
    ensures Pow2(32 * i) == PowB(i)
    decreases i
  {
    if i > 0 {
      Pow2Limbs(i - 1);
      Pow2Add(32, 32 * (i - 1));
      Pow2Limb();
    }
  }

  /** The position of the highest bit plus one, zero for zero. */
  ghost predicate HasBits(v: nat, n: nat) {
    if v == 0 then n == 0 else n > 0 && Pow2(n - 1) <= v < Pow2(n)
  }

  /** The highest bit of a limb. */
  method LimbBits(x: nat) returns (nbits: nat)
    requires 0 < x < BASE
    ensures nbits < 32 && Pow2(nbits) <= x < Pow2(nbits + 1)
  {
    Pow2Limb();
    nbits := 31;
    while nbits > 0 && x / Pow2(nbits) % 2 == 0
      invariant 0 <= nbits < 32 && x < Pow2(nbits + 1)
    {
      TopBit(x, nbits);
      nbits := nbits - 1;
    }
    if nbits > 0 { TopBit(x, nbits); }
  }

  lemma TopBit(x: nat, k: nat)
    requires x < Pow2(k + 1)
    ensures x / Pow2(k) % 2 == 1 <==> Pow2(k) <= x
  {
    var p := Pow2(k);
    if x < p { RemainderIs(x, 0, x, p); } else { RemainderIs(x, 1, x - p, p); }
  }

  method Bits(pn: seq<nat>) returns (n: nat)
    requires |pn| == WIDTH && Limbed(pn)
    ensures HasBits(Value(pn), n) && n <= 256
  {
    hide Value, Pow2;
    var pos := WIDTH;
    assert pn[..WIDTH] == pn;
    while pos > 0
      invariant 0 <= pos <= WIDTH && Value(pn[..pos]) == Value(pn)
    {
      pos := pos - 1;
      ValueNext(pn, pos);
      if pn[pos] != 0 {
        var nbits := LimbBits(pn[pos]);
        BitsOfTop(pn[..pos], pn[pos], nbits);
        return 32 * pos + nbits + 1;
      }
    }
    NoLimbs(pn, 0);
    return 0;
  }

  lemma BitsOfTop(low: seq<nat>, x: nat, nbits: nat)
    requires Limbed(low) && Pow2(nbits) <= x < Pow2(nbits + 1)
    ensures HasBits(Value(low) + PowB(|low|) * x, 32 * |low| + nbits + 1)
  {
    hide Value, PowB, Pow2;
    var p := PowB(|low|);
    ValueBound(low);
    Pow2Limbs(|low|);
    Pow2Add(32 * |low|, nbits);
    Pow2Add(32 * |low|, nbits + 1);
    MultiplyGrows(Pow2(nbits), x, p);
    MultiplyGrows(x + 1, Pow2(nbits + 1), p);
    Distribute(x, 1, p);
  }
}
