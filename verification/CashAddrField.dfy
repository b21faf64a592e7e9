/** The checksum as the remainder it is meant to be: symbols are the elements of a field, a string of them is a
    polynomial, and the 40 bits are the coefficients left after division by the generator. */
module CashAddrField {
  import opened CashAddrCode

  /** An element of the field of 32 elements: five bits, a polynomial in `a` over the two-element field. */
  type Element = bv5

  /** Addition: that of the coefficients. */
  function Sum5(x: Element, y: Element): Element { x ^ y }

  /** Multiplication by `a`, where a^5 = a^3 + 1. */
  function Double(e: Element): Element { (e << 1) ^ (if e & 16 != 0 then 9 else 0) }

  /** Multiplication: the sum of the multiples by the powers of `a` in the second factor. */
  function Mul(x: Element, y: Element): Element {
    Sum5(Sum5(Sum5(Part(y & 1 != 0, x), Part(y & 2 != 0, Double(x))),
              Sum5(Part(y & 4 != 0, Double(Double(x))), Part(y & 8 != 0, Double(Double(Double(x)))))),
         Part(y & 16 != 0, Double(Double(Double(Double(x))))))
  }

  lemma DoubleLinear(x: Element, y: Element)
    ensures Double(Sum5(x, y)) == Sum5(Double(x), Double(y))
  {
  }

  /** A multiple, if its bit is set. */
  function Part(set_: bool, x: Element): Element { if set_ then x else 0 }

  lemma PartLinear(set_: bool, x: Element, y: Element)
    ensures Part(set_, Sum5(x, y)) == Sum5(Part(set_, x), Part(set_, y))
  {
  }

  lemma Shuffle(a: Element, b: Element, c: Element, d: Element)
    ensures Sum5(Sum5(a, b), Sum5(c, d)) == Sum5(Sum5(a, c), Sum5(b, d))
  {
  }

  lemma MulDistributes(x: Element, y: Element, z: Element)
    ensures Mul(Sum5(x, y), z) == Sum5(Mul(x, z), Mul(y, z))
  {
    hide Double, Part, Sum5;
    var x1, y1 := Double(x), Double(y);
    var x2, y2 := Double(x1), Double(y1);
    var x3, y3 := Double(x2), Double(y2);
    var x4, y4 := Double(x3), Double(y3);
    DoubleLinear(x, y);
    DoubleLinear(x1, y1);
    DoubleLinear(x2, y2);
    DoubleLinear(x3, y3);
    var b0, b1, b2, b3, b4 := z & 1 != 0, z & 2 != 0, z & 4 != 0, z & 8 != 0, z & 16 != 0;
    PartLinear(b0, x, y);
    PartLinear(b1, x1, y1);
    PartLinear(b2, x2, y2);
    PartLinear(b3, x3, y3);
    PartLinear(b4, x4, y4);
    Shuffle(Part(b0, x), Part(b0, y), Part(b1, x1), Part(b1, y1));
    Shuffle(Part(b2, x2), Part(b2, y2), Part(b3, x3), Part(b3, y3));
    Shuffle(Sum5(Part(b0, x), Part(b1, x1)), Sum5(Part(b0, y), Part(b1, y1)),
            Sum5(Part(b2, x2), Part(b3, x3)), Sum5(Part(b2, y2), Part(b3, y3)));
    Shuffle(Sum5(Sum5(Part(b0, x), Part(b1, x1)), Sum5(Part(b2, x2), Part(b3, x3))),
            Sum5(Sum5(Part(b0, y), Part(b1, y1)), Sum5(Part(b2, y2), Part(b3, y3))), Part(b4, x4), Part(b4, y4));
  }

  lemma MulSum(x: Element, y: Element, z: Element)
    ensures Mul(x, Sum5(y, z)) == Sum5(Mul(x, y), Mul(x, z))
  {
    hide Mul, Sum5;
    MulCommutes(x, Sum5(y, z));
    MulDistributes(y, z, x);
    MulCommutes(x, y);
    MulCommutes(x, z);
  }

  lemma MulUnit(x: Element)
    ensures Mul(x, 1) == x
  {
    hide Mul;
    MulCommutes(x, 1);
    PowersMul1(x);
  }

  lemma PowersMul1(x: Element)
    ensures Mul(1, x) == x
  {
  }

  lemma PowersMul2(x: Element)
    ensures Mul(2, x) == Double(x)
  {
  }

  lemma PowersMul4(x: Element)
    ensures Mul(4, x) == Double(Double(x))
  {
  }

  lemma PowersMul8(x: Element)
    ensures Mul(8, x) == Double(Double(Double(x)))
  {
  }

  lemma PowersMul16(x: Element)
    ensures Mul(16, x) == Double(Double(Double(Double(x))))
  {
  }

  lemma MulPart(x: Element, set_: bool, y: Element)
    ensures Mul(x, Part(set_, y)) == Part(set_, Mul(x, y)) && Mul(Part(set_, y), x) == Part(set_, Mul(y, x))
  {
    hide Mul;
    NoneMul(x);
    MulNone(x);
  }

  lemma MulNone(x: Element)
    ensures Mul(x, 0) == 0
  {
  }

  lemma NoneMul(x: Element)
    ensures Mul(0, x) == 0
  {
  }

  /** An element is the sum of the powers of `a` in it. */
  lemma Expanded(y: Element)
    ensures y == Sum5(Sum5(Sum5(Part(y & 1 != 0, 1), Part(y & 2 != 0, 2)),
                           Sum5(Part(y & 4 != 0, 4), Part(y & 8 != 0, 8))), Part(y & 16 != 0, 16))
  {
  }

  lemma MulCommutes(x: Element, y: Element)
    ensures Mul(x, y) == Mul(y, x)
  {
    var b0, b1, b2, b3, b4 := y & 1 != 0, y & 2 != 0, y & 4 != 0, y & 8 != 0, y & 16 != 0;
    MulIs(x, y);
    Expanded(y);
    hide Mul, Sum5, Part, Double;
    var p0, p1, p2, p3, p4 := Part(b0, 1), Part(b1, 2), Part(b2, 4), Part(b3, 8), Part(b4, 16);
    MulDistributes(Sum5(Sum5(p0, p1), Sum5(p2, p3)), p4, x);
    MulDistributes(Sum5(p0, p1), Sum5(p2, p3), x);
    MulDistributes(p0, p1, x);
    MulDistributes(p2, p3, x);
    MulPart(x, b0, 1);
    MulPart(x, b1, 2);
    MulPart(x, b2, 4);
    MulPart(x, b3, 8);
    MulPart(x, b4, 16);
    PowersMul1(x);
    PowersMul2(x);
    PowersMul4(x);
    PowersMul8(x);
    PowersMul16(x);
  }

  lemma DoubleMul(x: Element, y: Element)
    ensures Mul(Double(x), y) == Double(Mul(x, y))
  {
    var b0, b1, b2, b3, b4 := y & 1 != 0, y & 2 != 0, y & 4 != 0, y & 8 != 0, y & 16 != 0;
    var x1 := Double(x);
    var x2 := Double(x1);
    var x3 := Double(x2);
    var x4 := Double(x3);
    MulIs(x, y);
    MulIs(x1, y);
    hide Mul, Sum5, Part, Double;
    DoubleLinear(Sum5(Sum5(Part(b0, x), Part(b1, x1)), Sum5(Part(b2, x2), Part(b3, x3))), Part(b4, x4));
    DoubleLinear(Sum5(Part(b0, x), Part(b1, x1)), Sum5(Part(b2, x2), Part(b3, x3)));
    DoubleLinear(Part(b0, x), Part(b1, x1));
    DoubleLinear(Part(b2, x2), Part(b3, x3));
    DoublePart(b0, x);
    DoublePart(b1, x1);
    DoublePart(b2, x2);
    DoublePart(b3, x3);
    DoublePart(b4, x4);
  }

  lemma DoublePart(set_: bool, x: Element)
    ensures Double(Part(set_, x)) == Part(set_, Double(x))
  {
  }

  lemma MulDoubles(x: Element, y: Element)
    ensures Mul(x, Double(y)) == Double(Mul(x, y))
  {
    hide Mul, Double;
    MulCommutes(x, Double(y));
    DoubleMul(y, x);
    MulCommutes(x, y);
  }

  lemma MulAssociates(x: Element, y: Element, z: Element)
    ensures Mul(x, Mul(y, z)) == Mul(Mul(x, y), z)
  {
    var y1 := Double(y);
    var y2 := Double(y1);
    var y3 := Double(y2);
    var y4 := Double(y3);
    var b0, b1, b2, b3, b4 := z & 1 != 0, z & 2 != 0, z & 4 != 0, z & 8 != 0, z & 16 != 0;
    var low := Sum5(Part(b0, y), Part(b1, y1));
    var mid := Sum5(Part(b2, y2), Part(b3, y3));
    MulIs(y, z);
    MulIs(Mul(x, y), z);
    hide Double, Part, Sum5, Mul;
    MulSum(x, Sum5(low, mid), Part(b4, y4));
    MulSum(x, low, mid);
    MulSum(x, Part(b0, y), Part(b1, y1));
    MulSum(x, Part(b2, y2), Part(b3, y3));
    MulPart(x, b0, y);
    MulPart(x, b1, y1);
    MulPart(x, b2, y2);
    MulPart(x, b3, y3);
    MulPart(x, b4, y4);
    MulDoubles(x, y);
    MulDoubles(x, y1);
    MulDoubles(x, y2);
    MulDoubles(x, y3);
  }

  lemma MulIs(x: Element, y: Element)
    ensures Mul(x, y) ==
      Sum5(Sum5(Sum5(Part(y & 1 != 0, x), Part(y & 2 != 0, Double(x))),
                Sum5(Part(y & 4 != 0, Double(Double(x))), Part(y & 8 != 0, Double(Double(Double(x)))))),
           Part(y & 16 != 0, Double(Double(Double(Double(x))))))
  {
    hide Sum5, Part, Double;
  }

  lemma MulCancels(x: Element, y: Element)
    requires Mul(x, y) == 0
    ensures x == 0 || y == 0
  {
  }

  /** The worked examples of the format's description. */
  lemma MulExample(x: Element)
    ensures Mul(5, 26) == 9 && Mul(x, 1) == x && (27 as Element) ^ 13 == 22
  {
  }

  // ---------------------------------------------------------------- the remainder as eight coefficients

  function Low(c: bv64): Element { (c & 31) as bv5 }

  /** Coefficient `i` of the remainder, the leading one first. */
  function Digit(c: bv64, i: nat): Element
    requires i < 8
  {
    match i
    case 0 => Low(c >> 35) case 1 => Low(c >> 30) case 2 => Low(c >> 25) case 3 => Low(c >> 20)
    case 4 => Low(c >> 15) case 5 => Low(c >> 10) case 6 => Low(c >> 5) case _ => Low(c)
  }

  lemma LowSum(a: bv64, b: bv64)
    ensures Low(Plus(a, b)) == Sum5(Low(a), Low(b))
  {
    RawLowSum(a, b);
    NarrowSum(a & 31, b & 31);
  }

  lemma RawLowSum(a: bv64, b: bv64)
    ensures Plus(a, b) & 31 == (a & 31) ^ (b & 31)
  {
  }

  lemma NarrowSum(a: bv64, b: bv64)
    requires a < 32 && b < 32
    ensures a ^ b < 32 && (a ^ b) as bv5 == Sum5(a as bv5, b as bv5)
  {
  }

  lemma RawSumAt35(a: bv64, b: bv64)
    ensures (Plus(a, b) >> 35) & 31 == ((a >> 35) & 31) ^ ((b >> 35) & 31)
  {
  }

  lemma SumAt35(a: bv64, b: bv64)
    ensures Low(Plus(a, b) >> 35) == Sum5(Low(a >> 35), Low(b >> 35))
  {
    hide Plus, Sum5;
    RawSumAt35(a, b);
    NarrowSum((a >> 35) & 31, (b >> 35) & 31);
  }

  lemma RawSumAt30(a: bv64, b: bv64)
    ensures (Plus(a, b) >> 30) & 31 == ((a >> 30) & 31) ^ ((b >> 30) & 31)
  {
  }

  lemma SumAt30(a: bv64, b: bv64)
    ensures Low(Plus(a, b) >> 30) == Sum5(Low(a >> 30), Low(b >> 30))
  {
    hide Plus, Sum5;
    RawSumAt30(a, b);
    NarrowSum((a >> 30) & 31, (b >> 30) & 31);
  }

  lemma RawSumAt25(a: bv64, b: bv64)
    ensures (Plus(a, b) >> 25) & 31 == ((a >> 25) & 31) ^ ((b >> 25) & 31)
  {
  }

  lemma SumAt25(a: bv64, b: bv64)
    ensures Low(Plus(a, b) >> 25) == Sum5(Low(a >> 25), Low(b >> 25))
  {
    hide Plus, Sum5;
    RawSumAt25(a, b);
    NarrowSum((a >> 25) & 31, (b >> 25) & 31);
  }

  lemma RawSumAt20(a: bv64, b: bv64)
    ensures (Plus(a, b) >> 20) & 31 == ((a >> 20) & 31) ^ ((b >> 20) & 31)
  {
  }

  lemma SumAt20(a: bv64, b: bv64)
    ensures Low(Plus(a, b) >> 20) == Sum5(Low(a >> 20), Low(b >> 20))
  {
    hide Plus, Sum5;
    RawSumAt20(a, b);
    NarrowSum((a >> 20) & 31, (b >> 20) & 31);
  }

  lemma RawSumAt15(a: bv64, b: bv64)
    ensures (Plus(a, b) >> 15) & 31 == ((a >> 15) & 31) ^ ((b >> 15) & 31)
  {
  }

  lemma SumAt15(a: bv64, b: bv64)
    ensures Low(Plus(a, b) >> 15) == Sum5(Low(a >> 15), Low(b >> 15))
  {
    hide Plus, Sum5;
    RawSumAt15(a, b);
    NarrowSum((a >> 15) & 31, (b >> 15) & 31);
  }

  lemma RawSumAt10(a: bv64, b: bv64)
    ensures (Plus(a, b) >> 10) & 31 == ((a >> 10) & 31) ^ ((b >> 10) & 31)
  {
  }

  lemma SumAt10(a: bv64, b: bv64)
    ensures Low(Plus(a, b) >> 10) == Sum5(Low(a >> 10), Low(b >> 10))
  {
    hide Plus, Sum5;
    RawSumAt10(a, b);
    NarrowSum((a >> 10) & 31, (b >> 10) & 31);
  }

  lemma RawSumAt5(a: bv64, b: bv64)
    ensures (Plus(a, b) >> 5) & 31 == ((a >> 5) & 31) ^ ((b >> 5) & 31)
  {
  }

  lemma SumAt5(a: bv64, b: bv64)
    ensures Low(Plus(a, b) >> 5) == Sum5(Low(a >> 5), Low(b >> 5))
  {
    hide Plus, Sum5;
    RawSumAt5(a, b);
    NarrowSum((a >> 5) & 31, (b >> 5) & 31);
  }

  lemma DigitOfSum(a: bv64, b: bv64, i: nat)
    requires i < 8
    ensures Digit(Plus(a, b), i) == Sum5(Digit(a, i), Digit(b, i))
  {
    hide Plus, Sum5, Low;
    match i {
      case 0 => SumAt35(a, b);
      case 1 => SumAt30(a, b);
      case 2 => SumAt25(a, b);
      case 3 => SumAt20(a, b);
      case 4 => SumAt15(a, b);
      case 5 => SumAt10(a, b);
      case 6 => SumAt5(a, b);
      case _ => LowSum(a, b);
    }
  }

  lemma ShiftedHigh(c: bv64, d: Symbol)
    requires d < 32
    ensures (Shifted(c, d) >> 35) & 31 == (c >> 30) & 31 && (Shifted(c, d) >> 30) & 31 == (c >> 25) & 31
    ensures (Shifted(c, d) >> 25) & 31 == (c >> 20) & 31 && (Shifted(c, d) >> 20) & 31 == (c >> 15) & 31
  {
  }

  lemma ShiftedLow(c: bv64, d: Symbol)
    requires d < 32
    ensures (Shifted(c, d) >> 15) & 31 == (c >> 10) & 31 && (Shifted(c, d) >> 10) & 31 == (c >> 5) & 31
    ensures (Shifted(c, d) >> 5) & 31 == c & 31 && Shifted(c, d) & 31 == d as bv64
  {
  }

  lemma ShiftedDigit(c: bv64, d: Symbol, i: nat)
    requires i < 8 && d < 32
    ensures Digit(Shifted(c, d), i) == if i < 7 then Digit(c, i + 1) else d as bv5
  {
    hide Shifted;
    ShiftedHigh(c, d);
    ShiftedLow(c, d);
    Narrowed(d);
  }

  lemma Narrowed(d: Symbol)
    requires d < 32
    ensures (d as bv64) as bv5 == d as bv5
  {
  }

  /** The coefficients of the generator below its leading one, from x^7 down. */
  const GENERATOR: seq<Element> := [19, 3, 25, 11, 25, 3, 19, 1]

  lemma Constant0(i: nat)
    requires i < 8
    ensures Digit(0x98f2bc8e61, i) == GENERATOR[i]
  {
  }

  lemma Constant1(i: nat)
    requires i < 8
    ensures Digit(0x79b76d99e2, i) == Double(GENERATOR[i])
  {
  }

  lemma Constant2(i: nat)
    requires i < 8
    ensures Digit(0xf33e5fb3c4, i) == Double(Double(GENERATOR[i]))
  {
  }

  lemma Constant3(i: nat)
    requires i < 8
    ensures Digit(0xae2eabe2a8, i) == Double(Double(Double(GENERATOR[i])))
  {
  }

  lemma Constant4(i: nat)
    requires i < 8
    ensures Digit(0x1e4f43e470, i) == Double(Double(Double(Double(GENERATOR[i]))))
  {
  }

  lemma TermDigit(k: bv64, bit: bv64, t: bv64, i: nat)
    requires i < 8
    ensures Digit(Term(k, bit, t), i) == Part(k & bit != 0, Digit(t, i))
  {
    hide Digit;
    NoDigit(i);
  }

  lemma NoDigit(i: nat)
    requires i < 8
    ensures Digit(0, i) == 0
  {
  }

  lemma BitsNarrow(k: bv64)
    requires k < 32
    ensures (k & 1 != 0 <==> (k as bv5) & 1 != 0) && (k & 2 != 0 <==> (k as bv5) & 2 != 0)
    ensures (k & 4 != 0 <==> (k as bv5) & 4 != 0) && (k & 8 != 0 <==> (k as bv5) & 8 != 0)
    ensures k & 16 != 0 <==> (k as bv5) & 16 != 0
  {
  }

  /** The five constants are the generator times one, `a`, and so on to a^4. */
  lemma FeedbackDigit(k: bv64, i: nat)
    requires k < 32 && i < 8
    ensures Digit(Feedback(k), i) == Mul(k as bv5, GENERATOR[i])
  {
    hide Digit, Mul, Term, Plus, Sum5, Part, Double;
    var g := GENERATOR[i];
    BitsNarrow(k);
    MulCommutes(k as bv5, g);
    MulIs(g, k as bv5);
    var t0, t1, t2, t3, t4 := Term(k, 0x01, 0x98f2bc8e61), Term(k, 0x02, 0x79b76d99e2), Term(k, 0x04, 0xf33e5fb3c4),
      Term(k, 0x08, 0xae2eabe2a8), Term(k, 0x10, 0x1e4f43e470);
    DigitOfSum(Plus(Plus(t0, t1), Plus(t2, t3)), t4, i);
    DigitOfSum(Plus(t0, t1), Plus(t2, t3), i);
    DigitOfSum(t0, t1, i);
    DigitOfSum(t2, t3, i);
    TermDigit(k, 0x01, 0x98f2bc8e61, i);
    TermDigit(k, 0x02, 0x79b76d99e2, i);
    TermDigit(k, 0x04, 0xf33e5fb3c4, i);
    TermDigit(k, 0x08, 0xae2eabe2a8, i);
    TermDigit(k, 0x10, 0x1e4f43e470, i);
    Constant0(i);
    Constant1(i);
    Constant2(i);
    Constant3(i);
    Constant4(i);
  }

  lemma TopIs(c: bv64)
    requires c < LIMIT
    ensures Top(c) < 32 && Top(c) as bv5 == Digit(c, 0)
  {
  }

  /** A step multiplies the remainder by x, adds the symbol, and takes away the multiple of the generator that
      its leading coefficient calls for. */
  lemma StepReduces(c: bv64, d: Symbol, i: nat)
    requires c < LIMIT && d < 32 && i < 8
    ensures Digit(Step(c, d), i) ==
      Sum5(if i < 7 then Digit(c, i + 1) else d as bv5, Mul(Digit(c, 0), GENERATOR[i]))
  {
    hide Plus, Feedback, Shifted, Top, Mul, Sum5, Digit;
    TopIs(c);
    FeedbackDigit(Top(c), i);
    DigitOfSum(Shifted(c, d), Feedback(Top(c)), i);
    ShiftedDigit(c, d, i);
  }

  // ---------------------------------------------------------------- polynomials

  /** A polynomial by its coefficients, the highest first. */
  type Polynomial = seq<Element>

  function AddUp(p: Polynomial, q: Polynomial): Polynomial
    requires |p| == |q|
  {
    seq(|p|, i requires 0 <= i < |p| => Sum5(p[i], q[i]))
  }

  function Multiple(k: Element, p: Polynomial): Polynomial {
    seq(|p|, i requires 0 <= i < |p| => Mul(k, p[i]))
  }

  function Nought(n: nat): Polynomial { seq(n, _ => 0) }

  /** The product of two polynomials, as taught at school: the last coefficient of the first times the second,
      and one place higher the product of the rest. */
  function Product(p: Polynomial, q: Polynomial): (r: Polynomial)
    requires |q| > 0
    ensures |r| == |p| + |q| - 1
  {
    if p == [] then Nought(|q| - 1)
    else
      var n := |p| - 1;
      AddUp(Product(p[..n], q) + [0], Nought(n) + Multiple(p[n], q))
  }

  /** The generator: x^8 + {19} x^7 + {3} x^6 + {25} x^5 + {11} x^4 + {25} x^3 + {3} x^2 + {19} x + {1}. */
  const G: Polynomial := [1, 19, 3, 25, 11, 25, 3, 19, 1]

  function Digits(c: bv64): Polynomial { seq(8, i requires 0 <= i < 8 => Digit(c, i)) }

  function Coefficients(v: seq<Symbol>): Polynomial
    requires Symbols(v)
  {
    seq(|v|, i requires 0 <= i < |v| => Narrow(v[i]))
  }

  function Narrow(d: Symbol): Element
    requires d < 32
  {
    d as bv5
  }

  /** `p` is the given multiple of the generator and the remainder. */
  predicate Divided(p: Polynomial, quotient: Polynomial, remainder: Polynomial) {
    |remainder| == 8 && |p| == |quotient| + 8 && p == AddUp(Product(quotient, G), Nought(|quotient|) + remainder)
  }

  lemma SumLaws(x: Element, y: Element, z: Element)
    ensures Sum5(x, 0) == x && Sum5(0, x) == x && Sum5(x, x) == 0
    ensures Sum5(Sum5(x, y), z) == Sum5(x, Sum5(y, z)) && Sum5(x, y) == Sum5(y, x)
  {
  }

  /** One more coefficient: the quotient grows by the leading coefficient of the remainder. */
  lemma DividedNext(p: Polynomial, quotient: Polynomial, r: Polynomial, d: Element, r': Polynomial)
    requires Divided(p, quotient, r) && |r'| == 8
    requires forall i :: 0 <= i < 8 ==> r'[i] == Sum5((r + [d])[i + 1], Mul(r[0], G[i + 1]))
    ensures Divided(p + [d], quotient + [r[0]], r')
  {
    hide Sum5, Mul;
    var n, q, k := |quotient|, quotient + [r[0]], r[0];
    assert q[..n] == quotient && q[n] == k;
    var product, product' := Product(quotient, G), Product(q, G);
    assert product' == AddUp(product + [0], Nought(n) + Multiple(k, G));
    var whole := AddUp(product', Nought(n + 1) + r');
    forall j | 0 <= j < n + 9 ensures (p + [d])[j] == whole[j] {
      OneCoefficient(p, product, r, d, r', k, n, j);
    }
    assert p + [d] == whole;
  }

  lemma OneCoefficient(p: Polynomial, product: Polynomial, r: Polynomial, d: Element, r': Polynomial, k: Element,
                       n: nat, j: nat)
    requires |product| == n + 8 == |p| && |r| == |r'| == 8 && k == r[0] && j < n + 9
    requires p == AddUp(product, Nought(n) + r)
    requires forall i :: 0 <= i < 8 ==> r'[i] == Sum5((r + [d])[i + 1], Mul(k, G[i + 1]))
    ensures (p + [d])[j] == AddUp(AddUp(product + [0], Nought(n) + Multiple(k, G)), Nought(n + 1) + r')[j]
  {
    hide Sum5, Mul;
    var x := (product + [0])[j];
    if j < n {
      SumLaws(x, 0, 0);
    } else {
      var i := j - n;
      var y, m := (r + [d])[i], Mul(k, G[i]);
      assert (p + [d])[j] == Sum5(x, y) by { SumLaws(d, 0, 0); }
      SumLaws(x, m, if i == 0 then 0 else Sum5(y, m));
      SumLaws(x, 0, 0);
      SumLaws(m, y, m);
      SumLaws(m, m, y);
      SumLaws(y, m, m);
      SumLaws(y, 0, 0);
      MulUnit(k);
    }
  }

  /** The bits of the checksum, but for a final one, are the coefficients of the remainder of the symbols, with a
      one in front, on division by the generator. */
  lemma {:induction false} ChecksumIsRemainder(v: seq<Symbol>) returns (quotient: Polynomial)
    requires Symbols(v)
    ensures Divided(Nought(7) + [1] + Coefficients(v), quotient, Digits(Checksum(v) ^ 1))
    decreases |v|
  {
    quotient := FoldDivides(v);
    Unmasked(v);
  }

  lemma Unmasked(v: seq<Symbol>)
    ensures Checksum(v) ^ 1 == Fold(ONE, v)
  {
    hide Fold;
    XorTwice(Fold(ONE, v));
  }

  lemma XorTwice(c: bv64)
    ensures (c ^ 1) ^ 1 == c
  {
  }

  lemma {:induction false} FoldDivides(v: seq<Symbol>) returns (quotient: Polynomial)
    requires Symbols(v)
    ensures Divided(Nought(7) + [1] + Coefficients(v), quotient, Digits(Fold(ONE, v)))
    decreases |v|
  {
    hide Step, Digit, Sum5, Divided;
    if v == [] {
      quotient := [];
      assert Coefficients(v) == [];
      OneDivides();
      assert Nought(7) + [1] + Coefficients(v) == Nought(7) + [1];
    } else {
      var n := |v| - 1;
      var front, d := v[..n], v[n];
      assert Symbols(front) && d < 32 && v == front + [d];
      var q := FoldDivides(front);
      FoldConcat(ONE, front, [d]);
      FoldOne(Fold(ONE, front), d);
      FoldBounded(ONE, front);
      NextDigits(Nought(7) + [1] + Coefficients(front), q, Fold(ONE, front), d);
      assert Coefficients(v) == Coefficients(front) + [Narrow(d)];
      assert Nought(7) + [1] + Coefficients(v) == (Nought(7) + [1] + Coefficients(front)) + [Narrow(d)];
      quotient := q + [Digits(Fold(ONE, front))[0]];
    }
  }

  lemma OneDivides()
    ensures Divided(Nought(7) + [1], [], Digits(ONE))
  {
    OneDigits();
    hide Digit, Sum5;
    var p := Nought(7) + [1];
    assert Digits(ONE) == p;
    forall i | 0 <= i < 8 ensures AddUp(Product([], G), Nought(0) + Digits(ONE))[i] == p[i] {
      SumLaws(p[i], 0, 0);
    }
  }

  lemma OneDigits()
    ensures forall i :: 0 <= i < 8 ==> Digit(ONE, i) == if i == 7 then 1 else 0
  {
  }

  lemma NextDigits(p: Polynomial, q: Polynomial, c: bv64, d: Symbol)
    requires Divided(p, q, Digits(c)) && c < LIMIT && d < 32
    ensures Divided(p + [Narrow(d)], q + [Digits(c)[0]], Digits(Step(c, d)))
  {
    hide Step, Digit, Sum5, Mul, Divided;
    var r, r' := Digits(c), Digits(Step(c, d));
    forall i | 0 <= i < 8 ensures r'[i] == Sum5((r + [Narrow(d)])[i + 1], Mul(r[0], G[i + 1])) {
      StepReduces(c, d, i);
      assert GENERATOR[i] == G[i + 1];
    }
    DividedNext(p, q, r, Narrow(d), r');
  }

  // ---------------------------------------------------------------- the remainder is determined

  lemma SumCancels(x: Element, y: Element, z: Element)
    requires Sum5(x, y) == Sum5(x, z)
    ensures y == z
  {
  }

  lemma TopCoefficient(product: Polynomial, g: Polynomial, n: nat, k: Element, j: nat)
    requires g != [] && g[0] == 1 && |product| == n + |g| - 1 && j <= n
    ensures var all := AddUp(product + [0], Nought(n) + Multiple(k, g));
      if j < n then j < |product| && all[j] == product[j] else all[n] == Sum5((product + [0])[n], k)
  {
    hide Sum5, Mul;
    MulUnit(k);
    SumLaws((product + [0])[j], 0, 0);
  }

  lemma ProductAt(q: Polynomial, g: Polynomial, j: nat)
    requires |g| > 1 && g[0] == 1 && j < |q|
    ensures var n := |q| - 1;
      Product(q, g)[j] == if j < n then Product(q[..n], g)[j] else Sum5(Product(q[..n], g)[n], q[n])
  {
    hide Sum5, AddUp, Multiple, Nought;
    var n := |q| - 1;
    TopCoefficient(Product(q[..n], g), g, n, q[n], j);
  }

  lemma {:induction false} QuotientUnique(q: Polynomial, q': Polynomial)
    requires |q| == |q'| && forall j :: 0 <= j < |q| ==> Product(q, G)[j] == Product(q', G)[j]
    ensures q == q'
    decreases |q|
  {
    hide Sum5, Mul, Product;
    if q != [] {
      var n := |q| - 1;
      forall j | 0 <= j < n ensures Product(q[..n], G)[j] == Product(q'[..n], G)[j] {
        ProductAt(q, G, j);
        ProductAt(q', G, j);
      }
      QuotientUnique(q[..n], q'[..n]);
      ProductAt(q, G, n);
      ProductAt(q', G, n);
      SumCancels(Product(q[..n], G)[n], q[n], q'[n]);
      assert q == q[..n] + [q[n]] && q' == q'[..n] + [q'[n]];
    }
  }

  /** There is only one remainder of degree below eight. */
  lemma RemainderUnique(p: Polynomial, q: Polynomial, r: Polynomial, q': Polynomial, r': Polynomial)
    requires Divided(p, q, r) && Divided(p, q', r')
    ensures q == q' && r == r'
  {
    hide Sum5, Mul, Product;
    var n := |q|;
    forall j | 0 <= j < n ensures Product(q, G)[j] == Product(q', G)[j] {
      SumLaws(Product(q, G)[j], 0, 0);
      SumLaws(Product(q', G)[j], 0, 0);
      assert p[j] == Sum5(Product(q, G)[j], 0) && p[j] == Sum5(Product(q', G)[j], 0);
    }
    QuotientUnique(q, q');
    forall i | 0 <= i < 8 ensures r[i] == r'[i] {
      assert p[n + i] == Sum5(Product(q, G)[n + i], r[i]) && p[n + i] == Sum5(Product(q, G)[n + i], r'[i]);
      SumCancels(Product(q, G)[n + i], r[i], r'[i]);
    }
  }
}
