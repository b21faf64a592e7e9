/** The checksum of cashaddr addresses: a linear code over lists of five-bit symbols with a 40-bit
    remainder. */
module CashAddrCode {

  /** A five-bit symbol. */
  type Symbol = bv8

  predicate Symbols(v: seq<Symbol>) {
    forall i :: 0 <= i < |v| ==> v[i] < 32
  }

  /** Addition in the code is exclusive or, of remainders and of symbols. */
  function Plus(a: bv64, b: bv64): bv64 { a ^ b }

  function Add(a: Symbol, b: Symbol): Symbol { a ^ b }

  /** One multiple of the generator's remainder, if its bit is set. */
  function Term(c0: bv64, bit: bv64, k: bv64): bv64 { if c0 & bit != 0 then k else 0 }

  /** The multiples selected by the five bits of c0. */
  function Feedback(c0: bv64): bv64 {
    Plus(Plus(Plus(Term(c0, 0x01, 0x98f2bc8e61), Term(c0, 0x02, 0x79b76d99e2)),
              Plus(Term(c0, 0x04, 0xf33e5fb3c4), Term(c0, 0x08, 0xae2eabe2a8))),
         Term(c0, 0x10, 0x1e4f43e470))
  }

  function Top(c: bv64): bv64 { (c >> 35) & 0xFF }

  function Shifted(c: bv64, d: Symbol): bv64 { ((c & 0x07ffffffff) << 5) ^ (d as bv64) }

  /** One more symbol: multiply by x, add it, and reduce. */
  function Step(c: bv64, d: Symbol): bv64 { Plus(Shifted(c, d), Feedback(Top(c))) }

  function Fold(c: bv64, v: seq<Symbol>): bv64
    decreases |v|
  {
    if v == [] then c else Fold(Step(c, v[0]), v[1..])
  }

  const ONE: bv64 := 1

  function Checksum(v: seq<Symbol>): bv64 { Plus(Fold(ONE, v), ONE) }

  /** The loop over the symbols. */
  method PolyMod(v: seq<Symbol>) returns (r: bv64)
    ensures r == Checksum(v)
  {
    hide Step;
    var c: bv64 := ONE;
    var i := 0;
    assert v[0..] == v;
    while i < |v|
      invariant 0 <= i <= |v| && Fold(c, v[i..]) == Fold(ONE, v)
    {
      assert v[i..][1..] == v[i + 1..];
      c := Reduce(c, v[i]);
      i := i + 1;
    }
    return c ^ ONE;
  }

  method Reduce(was: bv64, d: Symbol) returns (c: bv64)
    ensures c == Step(was, d)
  {
    hide Plus;
    var c0 := (was >> 35) & 0xFF;
    c := ((was & 0x07ffffffff) << 5) ^ (d as bv64);
    ghost var c1 := c;
    c := Plus(c, Term(c0, 0x01, 0x98f2bc8e61));
    c := Plus(c, Term(c0, 0x02, 0x79b76d99e2));
    c := Plus(c, Term(c0, 0x04, 0xf33e5fb3c4));
    c := Plus(c, Term(c0, 0x08, 0xae2eabe2a8));
    c := Plus(c, Term(c0, 0x10, 0x1e4f43e470));
    Regroup(c1, Term(c0, 0x01, 0x98f2bc8e61), Term(c0, 0x02, 0x79b76d99e2), Term(c0, 0x04, 0xf33e5fb3c4),
            Term(c0, 0x08, 0xae2eabe2a8), Term(c0, 0x10, 0x1e4f43e470));
  }

  // ---------------------------------------------------------------- linearity

  lemma Regroup(a: bv64, b: bv64, c: bv64, d: bv64, e: bv64, f: bv64)
    ensures Plus(Plus(Plus(Plus(Plus(a, b), c), d), e), f) == Plus(a, Plus(Plus(Plus(b, c), Plus(d, e)), f))
  {
    hide Plus;
    Associate(Plus(Plus(Plus(a, b), c), d), e, f);
    Associate(Plus(Plus(a, b), c), d, Plus(e, f));
    Associate(Plus(a, b), c, Plus(d, Plus(e, f)));
    Associate(a, b, Plus(c, Plus(d, Plus(e, f))));
    Associate(b, c, Plus(d, Plus(e, f)));
    Associate(d, e, f);
    Associate(Plus(b, c), Plus(d, e), f);
  }

  lemma Associate(a: bv64, b: bv64, c: bv64)
    ensures Plus(Plus(a, b), c) == Plus(a, Plus(b, c))
  {
    XorAssociates(a, b, c);
    assert Plus(a, b) == a ^ b && Plus(b, c) == b ^ c;
  }

  lemma XorAssociates(a: bv64, b: bv64, c: bv64)
    ensures (a ^ b) ^ c == a ^ (b ^ c)
  {
  }

  lemma Exchange(a: bv64, b: bv64, c: bv64, d: bv64)
    ensures Plus(Plus(a, b), Plus(c, d)) == Plus(Plus(a, c), Plus(b, d))
  {
    hide Plus;
    Associate(a, b, Plus(c, d));
    Associate(b, c, d);
    Commute(b, c);
    Associate(c, b, d);
    Associate(a, c, Plus(b, d));
  }

  lemma Commute(a: bv64, b: bv64)
    ensures Plus(a, b) == Plus(b, a)
  {
  }

  lemma TermLinear(a: bv64, b: bv64, bit: bv64, k: bv64)
    requires bit == 1 || bit == 2 || bit == 4 || bit == 8 || bit == 16
    ensures Term(Plus(a, b), bit, k) == Plus(Term(a, bit, k), Term(b, bit, k))
  {
    hide Plus;
    BitOfSum(a, b, bit);
    SumOfTerms(k);
  }

  lemma BitOfSum(a: bv64, b: bv64, bit: bv64)
    requires bit == 1 || bit == 2 || bit == 4 || bit == 8 || bit == 16
    ensures Plus(a, b) & bit != 0 <==> (a & bit != 0) != (b & bit != 0)
  {
  }

  lemma SumOfTerms(k: bv64)
    ensures Plus(0, 0) == 0 && Plus(k, 0) == k && Plus(0, k) == k && Plus(k, k) == 0
  {
  }

  lemma FeedbackLinear(a: bv64, b: bv64)
    ensures Feedback(Plus(a, b)) == Plus(Feedback(a), Feedback(b))
  {
    hide Plus, Term;
    TermLinear(a, b, 0x01, 0x98f2bc8e61);
    TermLinear(a, b, 0x02, 0x79b76d99e2);
    TermLinear(a, b, 0x04, 0xf33e5fb3c4);
    TermLinear(a, b, 0x08, 0xae2eabe2a8);
    TermLinear(a, b, 0x10, 0x1e4f43e470);
    var a1, a2, a3, a4, a5 := Term(a, 0x01, 0x98f2bc8e61), Term(a, 0x02, 0x79b76d99e2),
      Term(a, 0x04, 0xf33e5fb3c4), Term(a, 0x08, 0xae2eabe2a8), Term(a, 0x10, 0x1e4f43e470);
    var b1, b2, b3, b4, b5 := Term(b, 0x01, 0x98f2bc8e61), Term(b, 0x02, 0x79b76d99e2),
      Term(b, 0x04, 0xf33e5fb3c4), Term(b, 0x08, 0xae2eabe2a8), Term(b, 0x10, 0x1e4f43e470);
    Exchange(a1, b1, a2, b2);
    Exchange(a3, b3, a4, b4);
    Exchange(Plus(a1, a2), Plus(b1, b2), Plus(a3, a4), Plus(b3, b4));
    Exchange(Plus(Plus(a1, a2), Plus(a3, a4)), Plus(Plus(b1, b2), Plus(b3, b4)), a5, b5);
  }

  lemma PartsLinear(a: bv64, b: bv64, d: Symbol, e: Symbol)
    ensures Top(Plus(a, b)) == Plus(Top(a), Top(b))
    ensures Shifted(Plus(a, b), Add(d, e)) == Plus(Shifted(a, d), Shifted(b, e))
  {
  }

  lemma StepLinear(a: bv64, b: bv64, d: Symbol, e: Symbol)
    ensures Step(Plus(a, b), Add(d, e)) == Plus(Step(a, d), Step(b, e))
  {
    hide Plus, Add, Feedback, Shifted, Top;
    PartsLinear(a, b, d, e);
    FeedbackLinear(Top(a), Top(b));
    Exchange(Shifted(a, d), Shifted(b, e), Feedback(Top(a)), Feedback(Top(b)));
  }

  const LIMIT: bv64 := 0x10000000000

  lemma StepBounded(c: bv64, d: Symbol)
    requires c < LIMIT && d < 32
    ensures Step(c, d) < LIMIT
  {
  }

  /** A step without a symbol loses nothing: only zero goes to zero. */
  lemma StepInvertible(c: bv64)
    requires c < LIMIT && Step(c, 0) == 0
    ensures c == 0
  {
  }

  function Sum(v: seq<Symbol>, w: seq<Symbol>): seq<Symbol>
    requires |v| == |w|
  {
    seq(|v|, i requires 0 <= i < |v| => Add(v[i], w[i]))
  }

  lemma {:induction false} FoldLinear(a: bv64, b: bv64, v: seq<Symbol>, w: seq<Symbol>)
    requires |v| == |w|
    ensures Fold(Plus(a, b), Sum(v, w)) == Plus(Fold(a, v), Fold(b, w))
    decreases |v|
  {
    hide Step, Plus, Add;
    if v != [] {
      StepLinear(a, b, v[0], w[0]);
      FoldLinear(Step(a, v[0]), Step(b, w[0]), v[1..], w[1..]);
      assert Sum(v, w)[1..] == Sum(v[1..], w[1..]);
    }
  }

  lemma {:induction false} FoldBounded(c: bv64, v: seq<Symbol>)
    requires c < LIMIT && Symbols(v)
    ensures Fold(c, v) < LIMIT
    decreases |v|
  {
    hide Step;
    if v != [] {
      StepBounded(c, v[0]);
      FoldBounded(Step(c, v[0]), v[1..]);
    }
  }

  lemma {:induction false} FoldConcat(c: bv64, v: seq<Symbol>, w: seq<Symbol>)
    ensures Fold(c, v + w) == Fold(Fold(c, v), w)
    decreases |v|
  {
    hide Step;
    if v == [] {
      assert v + w == w;
    } else {
      FoldConcat(Step(c, v[0]), v[1..], w);
      assert (v + w)[1..] == v[1..] + w;
    }
  }

  function Zeros(n: nat): seq<Symbol> { seq(n, _ => 0) }

  /** A difference never dies out while the symbols agree. */
  lemma {:induction false} DifferenceLasts(c: bv64, n: nat)
    requires c < LIMIT && c != 0
    ensures Fold(c, Zeros(n)) != 0
    decreases n
  {
    hide Step;
    if n > 0 {
      assert Zeros(n)[1..] == Zeros(n - 1);
      StepBounded(c, 0);
      if Step(c, 0) == 0 { StepInvertible(c); }
      DifferenceLasts(Step(c, 0), n - 1);
    }
  }

  // ---------------------------------------------------------------- bursts

  /** Before the remainder overflows, symbols are just packed side by side. */
  function Pack(v: seq<Symbol>): bv64
    decreases |v|
  {
    if v == [] then 0 else Packed(Pack(v[..|v| - 1]), v[|v| - 1])
  }

  function Packed(p: bv64, d: Symbol): bv64 { (p << 5) ^ (d as bv64) }

  /** The first value too large for so many symbols. */
  function Room(n: nat): bv64
    requires n <= 8
  {
    if n == 0 then 1 else if n == 1 then 0x20 else if n == 2 then 0x400 else if n == 3 then 0x8000
    else if n == 4 then 0x100000 else if n == 5 then 0x2000000 else if n == 6 then 0x40000000
    else if n == 7 then 0x800000000 else LIMIT
  }

  predicate Fits(p: bv64, n: nat)
    requires n <= 8
  {
    p < Room(n)
  }

  lemma PackStep(p: bv64, d: Symbol)
    requires p < 0x800000000 && d < 32
    ensures Step(p, d) == Packed(p, d)
    ensures Packed(p, d) == 0 ==> p == 0 && d == 0
  {
    assert Top(p) == 0;
    assert Feedback(0) == 0;
  }

  lemma PackRoom(p: bv64, d: Symbol, room: bv64)
    requires room <= 0x800000000 && p < room && d < 32
    ensures Packed(p, d) < room << 5
  {
  }

  lemma RoomGrows(p: bv64, d: Symbol, n: nat)
    requires n < 8 && Fits(p, n) && d < 32
    ensures Fits(Packed(p, d), n + 1) && p < 0x800000000
  {
    hide Packed;
    if n == 0 { PackRoom(p, d, 1); } else if n == 1 { PackRoom(p, d, 0x20); }
    else if n == 2 { PackRoom(p, d, 0x400); } else if n == 3 { PackRoom(p, d, 0x8000); }
    else if n == 4 { PackRoom(p, d, 0x100000); } else if n == 5 { PackRoom(p, d, 0x2000000); }
    else if n == 6 { PackRoom(p, d, 0x40000000); } else { PackRoom(p, d, 0x800000000); }
  }

  /** While there is room, a step packs one more symbol; and only zeros pack to zero. */
  lemma PackFits(p: bv64, d: Symbol, n: nat)
    requires n < 8 && Fits(p, n) && d < 32
    ensures Fits(Packed(p, d), n + 1) && Step(p, d) == Packed(p, d)
    ensures Packed(p, d) == 0 ==> p == 0 && d == 0
  {
    hide Step, Packed, Fits;
    RoomGrows(p, d, n);
    PackStep(p, d);
  }

  lemma {:induction false} FoldPacks(v: seq<Symbol>)
    requires |v| <= 8 && Symbols(v)
    ensures Fold(0, v) == Pack(v) && Fits(Pack(v), |v|)
    ensures Pack(v) == 0 ==> forall i :: 0 <= i < |v| ==> v[i] == 0
    decreases |v|
  {
    hide Step, Packed, Room, Fits;
    if v == [] {
      NothingFits();
    } else {
      var n := |v| - 1;
      var front, last := v[..n], v[n];
      assert v == front + [last];
      FoldPacks(front);
      FoldConcat(0, front, [last]);
      PackFits(Pack(front), last, n);
      FoldOne(Fold(0, front), last);
      if Pack(v) == 0 {
        forall i | 0 <= i < |v| ensures v[i] == 0 { assert i < n ==> v[i] == front[i]; }
      }
    }
  }

  lemma NothingFits()
    ensures Fits(0, 0)
  {
  }

  lemma FoldOne(c: bv64, d: Symbol)
    ensures Fold(c, [d]) == Step(c, d)
  {
    hide Step;
    assert [d][1..] == [];
  }

  /** Lists that agree outside a window of eight positions. */
  predicate DifferInWindow(v: seq<Symbol>, w: seq<Symbol>, start: nat) {
    && |v| == |w| && v != w
    && forall i :: 0 <= i < |v| && !(start <= i < start + 8) ==> v[i] == w[i]
  }

  lemma {:induction false} FoldZero(n: nat)
    ensures Fold(0, Zeros(n)) == 0
    decreases n
  {
    if n > 0 {
      assert Zeros(n)[1..] == Zeros(n - 1);
      FoldZero(n - 1);
    }
  }

  /** A burst of up to eight wrong symbols is always detected, however long the address. */
  lemma BurstDetected(v: seq<Symbol>, w: seq<Symbol>, start: nat)
    requires Symbols(v) && Symbols(w) && DifferInWindow(v, w, start)
    ensures Checksum(v) != Checksum(w)
  {
    hide Step, Fold, Pack, Room, Plus, Add;
    var n := |v|;
    var lo := if start < n then start else n;
    var hi := if lo + 8 < n then lo + 8 else n;
    FoldLinear(ONE, ONE, v, w);
    SumOfTerms(ONE);
    var mid := Sum(v, w)[lo..hi];
    assert Sum(v, w) == Zeros(lo) + (mid + Zeros(n - hi)) by { WindowOf(v, w, start, lo, hi); }
    FoldZero(lo);
    FoldConcat(0, Zeros(lo), mid + Zeros(n - hi));
    FoldConcat(0, mid, Zeros(n - hi));
    SumSymbols(v, w);
    FoldPacks(mid);
    FoldBounded(0, mid);
    NoDifference(v, w, start, lo, hi);
    DifferenceLasts(Fold(0, mid), n - hi);
    PlusDiffers(Fold(ONE, v), Fold(ONE, w));
  }

  lemma WindowOf(v: seq<Symbol>, w: seq<Symbol>, start: nat, lo: nat, hi: nat)
    requires DifferInWindow(v, w, start)
    requires lo == (if start < |v| then start else |v|) && hi == (if lo + 8 < |v| then lo + 8 else |v|)
    ensures Sum(v, w) == Zeros(lo) + (Sum(v, w)[lo..hi] + Zeros(|v| - hi))
  {
    hide Add;
    forall i | 0 <= i < |v| && !(lo <= i < hi) ensures Sum(v, w)[i] == 0 {
      AddZero(v[i], w[i]);
    }
  }

  lemma NoDifference(v: seq<Symbol>, w: seq<Symbol>, start: nat, lo: nat, hi: nat)
    requires DifferInWindow(v, w, start)
    requires lo == (if start < |v| then start else |v|) && hi == (if lo + 8 < |v| then lo + 8 else |v|)
    ensures exists i :: 0 <= i < hi - lo && Sum(v, w)[lo..hi][i] != 0
  {
    hide Add;
    var i :| 0 <= i < |v| && v[i] != w[i];
    AddZero(v[i], w[i]);
    assert Sum(v, w)[lo..hi][i - lo] == Add(v[i], w[i]);
  }

  lemma SumSymbols(v: seq<Symbol>, w: seq<Symbol>)
    requires |v| == |w| && Symbols(v) && Symbols(w)
    ensures Symbols(Sum(v, w))
  {
    hide Add;
    forall i | 0 <= i < |v| ensures Add(v[i], w[i]) < 32 { AddSmall(v[i], w[i]); }
  }

  lemma AddSmall(a: Symbol, b: Symbol)
    requires a < 32 && b < 32
    ensures Add(a, b) < 32
  {
  }

  lemma AddZero(a: Symbol, b: Symbol)
    ensures Add(a, b) == 0 <==> a == b
  {
  }

  lemma PlusDiffers(a: bv64, b: bv64)
    ensures Plus(a, b) != 0 <==> Plus(a, ONE) != Plus(b, ONE)
  {
    hide Plus;
    Cancel(a, b);
    Cancel(a, ONE);
    Cancel(b, ONE);
    SumOfTerms(a);
    SumOfTerms(b);
  }

  lemma Cancel(a: bv64, b: bv64)
    ensures Plus(Plus(a, b), b) == a
  {
    hide Plus;
    Associate(a, b, b);
    SumOfTerms(a);
    SumOfTerms(b);
  }
}
