/** The heights skip pointers lead to, and how many steps a walk over them takes: a number quadratic
    in the bits of the height. */
module SkipHeights {
  import opened Arithmetic

  /** Bitwise and of two numbers. */
  function And(a: nat, b: nat): (r: nat)
    ensures r <= a && r <= b
  {
    if a == 0 || b == 0 then 0 else 2 * And(a / 2, b / 2) + (if a % 2 == 1 && b % 2 == 1 then 1 else 0)
  }

  /** Turns the lowest one bit into a zero. */
  function InvertLowestOne(n: nat): nat { if n == 0 then 0 else And(n, n - 1) }

  lemma AndSelf(n: nat)
    ensures And(n, n) == n
  {
  }

  /** `n` ends in a one bit worth 2^k, and `r` is `n` without it. */
  predicate LosesBit(n: nat, r: nat, k: nat, m: nat) {
    n == (2 * m + 1) * Pow2(k) && r == 2 * m * Pow2(k)
  }

  lemma LosesBitDoubled(n: nat, r: nat, k: nat, m: nat)
    requires LosesBit(n, r, k, m)
    ensures LosesBit(2 * n, 2 * r, k + 1, m)
  {
    assert 2 * ((2 * m + 1) * Pow2(k)) == (2 * m + 1) * (2 * Pow2(k));
    assert 2 * (2 * m * Pow2(k)) == 2 * m * (2 * Pow2(k));
  }

  lemma LosesBitOdd(m: nat)
    ensures LosesBit(2 * m + 1, 2 * m, 0, m)
  {
  }

  /** Exactly the lowest one bit goes: the others stay. */
  lemma {:induction false} InvertLowestOneIs(n: nat)
    requires n > 0
    ensures InvertLowestOne(n) < n
    ensures exists k: nat, m: nat :: LosesBit(n, InvertLowestOne(n), k, m)
    decreases n
  {
    hide LosesBit;
    var h := n / 2;
    if n % 2 == 1 {
      AndSelf(h);
      assert (n - 1) / 2 == h;
      LosesBitOdd(h);
    } else {
      InvertLowestOneIs(h);
      assert (n - 1) / 2 == h - 1;
      var k: nat, m: nat :| LosesBit(h, InvertLowestOne(h), k, m);
      LosesBitDoubled(h, InvertLowestOne(h), k, m);
    }
  }

  /** What height to jump back to. */
  function SkipHeight(height: nat): nat {
    if height < 2 then 0
    else if height % 2 == 1 then InvertLowestOne(InvertLowestOne(height - 1)) + 1
    else InvertLowestOne(height)
  }

  /** `r` is `n` without its lowest one bit, if it has one. */
  ghost predicate Clears(n: nat, r: nat) {
    if n == 0 then r == 0 else exists k: nat, m: nat :: LosesBit(n, r, k, m)
  }

  ghost predicate OddSkip(height: nat, mid: nat, skip: nat) {
    height > 0 && skip > 0 && Clears(height - 1, mid) && Clears(mid, skip - 1)
  }

  lemma InvertClears(n: nat)
    ensures Clears(n, InvertLowestOne(n))
  {
    if n > 0 { InvertLowestOneIs(n); }
  }

  /** Even heights lose their lowest one bit; odd ones keep the last and lose the next two. */
  lemma SkipHeightIs(height: nat)
    ensures height < 2 ==> SkipHeight(height) == 0
    ensures height >= 2 && height % 2 == 0 ==> Clears(height, SkipHeight(height))
    ensures height >= 2 && height % 2 == 1 ==>
      exists mid: nat :: OddSkip(height, mid, SkipHeight(height))
  {
    hide Clears, InvertLowestOne;
    if height >= 2 {
      if height % 2 == 0 {
        InvertClears(height);
      } else {
        InvertClears(height - 1);
        InvertClears(InvertLowestOne(height - 1));
        assert OddSkip(height, InvertLowestOne(height - 1), SkipHeight(height));
      }
    }
  }

  lemma SkipsBack(height: nat)
    requires height > 0
    ensures SkipHeight(height) < height
  {
    if height >= 2 {
      InvertLowestOneIs(if height % 2 == 1 then height - 1 else height);
    }
  }

  // ---------------------------------------------------------------- walking

  /** Where the walk to `height` goes from `walk`: over the skip pointer if it does not lead too far,
      unless that of the parent leads closer. */
  function NextHeight(walk: nat, height: nat): (next: nat)
    requires walk > height
    ensures height <= next < walk
  {
    SkipsBack(walk);
    var skip, skipPrev := SkipHeight(walk), SkipHeight(walk - 1);
    if skip == height || (skip > height && !(skipPrev < skip - 2 && skipPrev >= height)) then skip else walk - 1
  }

  function Steps(walk: nat, height: nat): nat {
    if walk <= height then 0 else 1 + Steps(NextHeight(walk, height), height)
  }

  // ---------------------------------------------------------------- bits

  function Ones(n: nat): nat { if n == 0 then 0 else n % 2 + Ones(n / 2) }

  lemma InvertHalf(n: nat)
    requires n > 0
    ensures InvertLowestOne(2 * n) == 2 * InvertLowestOne(n) && InvertLowestOne(2 * n + 1) == 2 * n
  {
    AndSelf(n);
    assert (2 * n - 1) / 2 == n - 1 && 2 * n / 2 == n && (2 * n + 1) / 2 == n;
  }

  /** One bit fewer. */
  lemma {:induction false} InvertLosesOne(n: nat)
    requires n > 0
    ensures InvertLowestOne(n) < n && Ones(InvertLowestOne(n)) == Ones(n) - 1
    ensures n % 2 == 0 ==> InvertLowestOne(n) % 2 == 0
  {
    var h := n / 2;
    if h == 0 {
      assert n == 1;
    } else {
      InvertHalf(h);
      hide InvertLowestOne;
      if n % 2 == 0 {
        InvertLosesOne(h);
        assert Ones(2 * InvertLowestOne(h)) == Ones(InvertLowestOne(h));
      } else {
        assert Ones(2 * h) == Ones(h);
      }
    }
  }

  lemma {:induction false} OnesAtMost(x: nat, j: nat)
    requires x < Pow2(j)
    ensures Ones(x) <= j
  {
    if x > 0 { OnesAtMost(x / 2, j - 1); }
  }

  lemma Invert1()
    ensures InvertLowestOne(1) == 0 && InvertLowestOne(6) == 4 && InvertLowestOne(4) == 0
  {
    InvertHalf(3);
    InvertHalf(1);
    InvertHalf(2);
  }

  /** A multiple of a power of two. */
  function Times(a: nat, j: nat): nat { a * Pow2(j) }

  lemma Halves(a: nat, j: nat)
    requires j > 0
    ensures Times(a, j) == 2 * Times(a, j - 1) == Times(2 * a, j - 1) && Pow2(j) == 2 * Pow2(j - 1)
  {
    Associate(a, 2, Pow2(j - 1));
    Commute(a, 2);
    Associate(2, a, Pow2(j - 1));
  }

  lemma TimesNext(a: nat, j: nat)
    ensures Times(a + 1, j) == Times(a, j) + Pow2(j) && Times(0, j) == 0 && Times(a, 0) == a && Pow2(j) > 0
    ensures a > 0 ==> Times(a, j) >= Pow2(j)
  {
    Distribute(a, 1, Pow2(j));
    if a > 0 { MultiplyGrows(1, a, Pow2(j)); }
  }

  /** Bits above the lowest do not matter. */
  lemma {:induction false} InvertOffset(a: nat, j: nat, x: nat)
    requires 0 < x < Pow2(j)
    ensures InvertLowestOne(Times(a, j) + x) == Times(a, j) + InvertLowestOne(x)
    decreases j
  {
    hide InvertLowestOne, Times;
    Halves(a, j);
    Invert1();
    var c, h := Times(a, j - 1), x / 2;
    if c > 0 { InvertHalf(c); }
    if h > 0 {
      InvertHalf(c + h);
      InvertHalf(h);
      if x % 2 == 0 { InvertOffset(a, j - 1, h); }
    }
  }

  lemma {:induction false} InvertTop(a: nat, j: nat)
    ensures InvertLowestOne(Times(2 * a + 1, j)) == Times(2 * a, j)
    decreases j
  {
    hide InvertLowestOne, Times;
    TimesNext(2 * a, j);
    TimesNext(2 * a + 1, j);
    if j == 0 {
      Invert1();
      if a > 0 { InvertHalf(a); }
    } else {
      InvertTop(a, j - 1);
      Halves(2 * a + 1, j);
      Halves(2 * a, j);
      InvertHalf(Times(2 * a + 1, j - 1));
    }
  }

  lemma {:induction false} InvertBelow(a: nat, j: nat)
    requires a > 0
    ensures InvertLowestOne(Times(a, j)) + Pow2(j) <= Times(a, j)
    decreases j
  {
    hide InvertLowestOne, Times;
    TimesNext(a, j);
    if j == 0 {
      InvertLosesOne(a);
    } else {
      InvertBelow(a, j - 1);
      Halves(a, j);
      TimesNext(a, j - 1);
      InvertHalf(Times(a, j - 1));
    }
  }

  /** The skip of an odd height clears two bits of the even height below it. */
  function TwoFewer(n: nat): nat { InvertLowestOne(InvertLowestOne(n)) }

  lemma TwoFewerIs(n: nat)
    requires Ones(n) >= 2
    ensures TwoFewer(n) < n && Ones(TwoFewer(n)) == Ones(n) - 2 && (n % 2 == 0 ==> TwoFewer(n) % 2 == 0)
  {
    hide InvertLowestOne;
    InvertLosesOne(n);
    var m := InvertLowestOne(n);
    InvertLosesOne(m);
  }

  /** The parent's skip is better only if the bit skipped is worth 2 or 4; then it clears at least two
      bits in two steps. */
  lemma BetterPrev(x: nat)
    requires x >= 2 && x % 2 == 0 && Ones(x - 2) >= 2 && TwoFewer(x - 2) + 1 < InvertLowestOne(x) - 2
    ensures Ones(x - 2) <= Ones(x)
  {
    hide InvertLowestOne, TwoFewer, Ones;
    EvenCases(x);
    if x % 4 == 2 {
      OnesOfPair(x);
    } else if x % 8 == 4 {
      OnesOfFour(x);
    } else {
      ClearSix(x);
    }
  }

  lemma EvenCases(x: nat)
    requires x >= 2 && x % 2 == 0
    ensures x % 4 == 2 || x % 8 == 4 || (x % 8 == 0 && x >= 8)
  {
    var w, r := x / 8, x % 8;
    assert x == 8 * w + r;
    if r == 2 || r == 6 { assert x == 4 * (2 * w + (r - 2) / 4) + 2; }
  }

  lemma OnesOfPair(x: nat)
    requires x % 4 == 2
    ensures Ones(x) == Ones(x - 2) + 1
  {
    assert x / 2 / 2 == (x - 2) / 2 / 2;
  }

  lemma OnesOfFour(x: nat)
    requires x % 8 == 4
    ensures Ones(x) == Ones(x - 2)
  {
    var w := x / 8;
    assert x / 2 / 2 / 2 == w && (x - 2) / 2 / 2 / 2 == w;
    assert Ones(x / 2 / 2) == 1 + Ones(w) && Ones((x - 2) / 2) == 1 + Ones((x - 2) / 2 / 2);
  }

  lemma ClearSix(x: nat)
    requires x >= 8 && x % 8 == 0
    ensures TwoFewer(x - 2) == x - 8 && InvertLowestOne(x) <= x - 8
  {
    hide InvertLowestOne;
    var w := x / 8 - 1;
    assert Pow2(3) == 8 && Times(w, 3) == x - 8 && Times(w + 1, 3) == x;
    hide Times, Pow2;
    InvertOffset(w, 3, 6);
    InvertOffset(w, 3, 4);
    InvertBelow(w + 1, 3);
    Invert1();
  }

  // ---------------------------------------------------------------- skips around a middle

  /** The middle of a range, and its low end. */
  function Mid(a: nat, j: nat): nat { Times(2 * a + 1, j) }

  function Low(a: nat, j: nat): nat { Times(2 * a, j) }

  lemma Middle(a: nat, j: nat)
    requires j > 0
    ensures Mid(a, j) % 2 == 0 && Mid(a, j) == Low(a, j) + Pow2(j) && Pow2(j) >= 2
    ensures Pow2(j) % 2 == 0 && Low(a, j) % 2 == 0
    ensures InvertLowestOne(Mid(a, j)) == Low(a, j)
  {
    hide Times, InvertLowestOne;
    Halves(2 * a + 1, j);
    Halves(2 * a, j);
    TimesNext(2 * a, j);
    TimesNext(0, j - 1);
    InvertTop(a, j);
  }

  lemma {:induction false} NoOnes(n: nat)
    requires Ones(n) == 0
    ensures n == 0
  {
    if n > 0 { NoOnes(n / 2); }
  }

  lemma OneOne(n: nat)
    requires Ones(n) == 1
    ensures n > 0 && InvertLowestOne(n) == 0
  {
    InvertLosesOne(n);
    NoOnes(InvertLowestOne(n));
  }

  lemma InvertMid(a: nat, j: nat, x: nat)
    requires 0 < x < Pow2(j)
    ensures InvertLowestOne(Mid(a, j) + x) == Mid(a, j) + InvertLowestOne(x)
  {
    hide InvertLowestOne, Times, Pow2;
    InvertOffset(2 * a + 1, j, x);
  }

  /** Where the odd height above an even one of the upper half skips to. */
  lemma OddSkips(a: nat, j: nat, z: nat)
    requires j > 0 && z < Pow2(j) && z % 2 == 0
    ensures Ones(z) == 0 ==> TwoFewer(Mid(a, j) + z) < Mid(a, j) - 1
    ensures Ones(z) == 1 ==> TwoFewer(Mid(a, j) + z) == Low(a, j) < Mid(a, j) - 1
    ensures Ones(z) >= 2 ==> TwoFewer(Mid(a, j) + z) == Mid(a, j) + TwoFewer(z)
  {
    hide InvertLowestOne, Mid, Low, Pow2, Ones;
    Middle(a, j);
    if Ones(z) == 0 {
      NoOnes(z);
      InvertDown(Low(a, j));
    } else if Ones(z) == 1 {
      OneOne(z);
      InvertMid(a, j, z);
    } else {
      OnesPositive(z);
      InvertMid(a, j, z);
      InvertLosesOne(z);
      OnesPositive(InvertLowestOne(z));
      InvertMid(a, j, InvertLowestOne(z));
    }
  }

  lemma OnesPositive(z: nat)
    requires Ones(z) > 0
    ensures z > 0
  {
  }

  lemma InvertDown(n: nat)
    ensures InvertLowestOne(n) <= n
  {
    if n > 0 { InvertLosesOne(n); }
  }

  // ---------------------------------------------------------------- the next height

  /** An odd height skips whenever that does not lead too far. */
  lemma OddNext(h: nat, t: nat)
    requires h > t && h % 2 == 1 && h >= 3
    ensures SkipHeight(h) == TwoFewer(h - 1) + 1
    ensures NextHeight(h, t) == if SkipHeight(h) >= t then SkipHeight(h) else h - 1
  {
    hide InvertLowestOne;
    InvertLosesOne(h - 1);
    InvertDown(InvertLowestOne(h - 1));
  }

  /** An even height that does not skip leaves it to the odd one below. */
  lemma TurnsOdd(h: nat, t: nat)
    requires h > t && h % 2 == 0 && h >= 4 && SkipHeight(h) > t && NextHeight(h, t) != SkipHeight(h)
    ensures NextHeight(h, t) == h - 1 && t <= SkipHeight(h - 1) < SkipHeight(h) - 2
    ensures h - 1 > t && NextHeight(h - 1, t) == SkipHeight(h - 1) == TwoFewer(h - 2) + 1
  {
    SkipsBack(h);
    OddNext(h - 1, t);
    hide SkipHeight;
  }

  lemma EvenSkips(h: nat)
    requires h % 2 == 0 && h >= 2
    ensures SkipHeight(h) == InvertLowestOne(h)
  {
  }

  lemma NoStep(t: nat)
    ensures Steps(t, t) == 0
  {
  }

  lemma OneStep(h: nat, t: nat)
    requires h > t
    ensures Steps(h, t) == 1 + Steps(NextHeight(h, t), t)
  {
  }

  // ---------------------------------------------------------------- the bound

  /** The steps to below the middle from a height with so many ones in its lower part, if it is even
      and if it is odd. */
  function EvenCost(p: nat): nat { if p < 2 then p + 1 else p + 2 }

  function OddCost(p: nat): nat { (p + 1) / 2 + 2 }

  function Cost(x: nat): nat { if x % 2 == 0 then EvenCost(Ones(x)) else OddCost(Ones(x - 1)) }

  /** The most steps within a range of so many bits. */
  function MostSteps(bits: nat): nat { if bits == 0 then 0 else MostSteps(bits - 1) + bits + 1 }

  lemma {:induction false} MostStepsIs(bits: nat)
    ensures MostSteps(bits) == bits * (bits + 3) / 2 && bits * (bits + 3) % 2 == 0
  {
    if bits > 0 {
      MostStepsIs(bits - 1);
      assert bits * (bits + 3) == (bits - 1) * (bits + 2) + 2 * (bits + 1);
    }
  }

  lemma CostAtMost(x: nat, j: nat)
    requires x < Pow2(j)
    ensures Cost(x) <= j + 2
  {
    hide Ones;
    OnesAtMost(x, j);
    if x % 2 == 1 { OnesAtMost(x - 1, j); }
  }

  /** Between two heights of one range the walk takes few steps. */
  lemma {:induction false} Within(bits: nat, a: nat, t: nat, h: nat)
    requires Times(a, bits) <= t <= h < Times(a, bits) + Pow2(bits)
    ensures Steps(h, t) <= MostSteps(bits)
    decreases bits, 1, 0, 0
  {
    hide Steps, Times, Cost, Pow2;
    if bits == 0 {
      assert Pow2(0) == 1 by { TimesNext(1, 0); Unit(); }
      NoStep(t);
    } else {
      var j := bits - 1;
      Halves(a, bits);
      TimesNext(2 * a, j);
      if h < Mid(a, j) {
        Within(j, 2 * a, t, h);
      } else if t >= Mid(a, j) {
        Within(j, 2 * a + 1, t, h);
      } else {
        Across(j, a, t, h - Mid(a, j));
        CostAtMost(h - Mid(a, j), j);
      }
    }
  }

  lemma Unit()
    ensures Pow2(0) == 1
  {
  }

  /** From the upper half of a range to the lower. */
  lemma {:induction false} Across(j: nat, a: nat, t: nat, x: nat)
    requires x < Pow2(j) && Low(a, j) <= t < Mid(a, j)
    ensures Steps(Mid(a, j) + x, t) <= MostSteps(j) + Cost(x)
    decreases j + 1, 0, x, 1
  {
    hide Steps, NextHeight, Cost, MostSteps, Mid, Low;
    if j == 0 {
      LastBit(a, t);
      Unit();
    } else if x == 0 {
      FromMiddle(j, a, t);
    } else if x % 2 == 0 {
      FromEven(j, a, t, x);
    } else {
      FromOdd(j, a, t, x);
    }
  }

  lemma LastBit(a: nat, t: nat)
    requires Low(a, 0) <= t < Mid(a, 0)
    ensures Steps(Mid(a, 0), t) == 1 && Cost(0) == 1
  {
    TimesNext(2 * a, 0);
    TimesNext(2 * a + 1, 0);
    hide SkipHeight;
    SkipsBack(2 * a + 1);
    assert Mid(a, 0) == t + 1 && NextHeight(t + 1, t) == t;
  }

  lemma {:induction false} FromMiddle(j: nat, a: nat, t: nat)
    requires j > 0 && Low(a, j) <= t < Mid(a, j)
    ensures Steps(Mid(a, j) + 0, t) <= MostSteps(j) + Cost(0)
    decreases j + 1, 0, 0, 0
  {
    hide Steps, SkipHeight, InvertLowestOne, Times, Pow2, MostSteps;
    var c := Mid(a, j);
    Middle(a, j);
    EvenSkips(c);
    OneStep(c, t);
    if NextHeight(c, t) == t {
      NoStep(t);
    } else {
      Within(j, 2 * a, t, c - 1);
    }
  }

  lemma {:induction false} FromEven(j: nat, a: nat, t: nat, x: nat)
    requires j > 0 && 0 < x < Pow2(j) && x % 2 == 0 && Low(a, j) <= t < Mid(a, j)
    ensures Steps(Mid(a, j) + x, t) <= MostSteps(j) + Cost(x)
    decreases j + 1, 0, x, 0
  {
    hide Steps, SkipHeight, NextHeight, InvertLowestOne, TwoFewer, Times, Pow2, MostSteps, Ones;
    var c := Mid(a, j);
    var h := c + x;
    Middle(a, j);
    EvenSkips(h);
    InvertMid(a, j, x);
    InvertLosesOne(x);
    OneStep(h, t);
    if NextHeight(h, t) == SkipHeight(h) {
      Across(j, a, t, InvertLowestOne(x));
    } else {
      TurnsOdd(h, t);
      OneStep(h - 1, t);
      OddSkips(a, j, x - 2);
      assert h - 2 == c + (x - 2);
      if Ones(x - 2) < 2 {
        Within(j, 2 * a, t, SkipHeight(h - 1));
      } else {
        TwoFewerIs(x - 2);
        BetterPrev(x);
        Across(j, a, t, TwoFewer(x - 2) + 1);
      }
    }
  }

  lemma {:induction false} FromOdd(j: nat, a: nat, t: nat, x: nat)
    requires j > 0 && x < Pow2(j) && x % 2 == 1 && Low(a, j) <= t < Mid(a, j)
    ensures Steps(Mid(a, j) + x, t) <= MostSteps(j) + Cost(x)
    decreases j + 1, 0, x, 0
  {
    hide Steps, SkipHeight, NextHeight, InvertLowestOne, TwoFewer, Times, Pow2, MostSteps, Ones;
    var c, z := Mid(a, j), x - 1;
    var h := c + x;
    Middle(a, j);
    OddNext(h, t);
    OddSkips(a, j, z);
    OneStep(h, t);
    assert h - 1 == c + z;
    if Ones(z) >= 2 {
      TwoFewerIs(z);
      Across(j, a, t, TwoFewer(z) + 1);
    } else if SkipHeight(h) >= t {
      Within(j, 2 * a, t, SkipHeight(h));
    } else {
      Across(j, a, t, z);
    }
  }

  /** The walk to any ancestor takes a number of steps at most quadratic in the bits of the height. */
  lemma StepsAreFew(h: nat, t: nat, bits: nat)
    requires t <= h < Pow2(bits)
    ensures Steps(h, t) <= bits * (bits + 3) / 2
  {
    hide Steps;
    TimesNext(0, bits);
    Within(bits, 0, t, h);
    MostStepsIs(bits);
  }
}
