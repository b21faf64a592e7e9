/** Golomb-coded sets: a sorted set of hashes as Golomb-Rice coded differences, matched by merging. */
module GolombFilter {
  import opened Arithmetic
  import opened Options

  const TWO_64: nat := 0x1_0000_0000_0000_0000

  // ---------------------------------------------------------------- mapping into a range

  lemma HalfProduct(a: nat, b: nat)
    requires a < TWO_32 && b < TWO_32
    ensures 0 <= a * b <= (TWO_32 - 1) * (TWO_32 - 1) < TWO_64
  {
    MultiplyGrows(a, TWO_32 - 1, b);
    MultiplyGrows(b, TWO_32 - 1, TWO_32 - 1);
    Commute(TWO_32 - 1, b);
  }

  /** The upper half of a 128-bit product from 64-bit pieces: every intermediate value fits. */
  method MapIntoRange(x: nat, n: nat) returns (upper64: nat)
    requires x < TWO_64 && n < TWO_64
    ensures upper64 == x * n / TWO_64
  {
    var xHi: nat, xLo: nat := x / TWO_32, x % TWO_32;
    var nHi: nat, nLo: nat := n / TWO_32, n % TWO_32;
    HalfProduct(xHi, nHi);
    HalfProduct(xHi, nLo);
    HalfProduct(xLo, nHi);
    HalfProduct(xLo, nLo);
    var ac: nat, ad: nat, bc: nat, bd: nat := xHi * nHi, xHi * nLo, xLo * nHi, xLo * nLo;
    var mid34 := bd / TWO_32 + bc % TWO_32 + ad % TWO_32;
    assert mid34 < TWO_64;
    upper64 := ac + bc / TWO_32 + ad / TWO_32 + mid34 / TWO_32;
    Pieces(x, n, xHi, xLo, nHi, nLo);
    Upper(x * n, ac, ad, bc, bd);
  }

  lemma Pieces(x: int, n: int, xHi: int, xLo: int, nHi: int, nLo: int)
    requires x == xHi * TWO_32 + xLo && n == nHi * TWO_32 + nLo
    ensures x * n == xHi * nHi * TWO_64 + (xHi * nLo + xLo * nHi) * TWO_32 + xLo * nLo
  {
    Distribute(xHi * TWO_32, xLo, n);
    Distribute(nHi * TWO_32, nLo, xHi * TWO_32);
    Distribute(nHi * TWO_32, nLo, xLo);
    assert (xHi * TWO_32) * (nHi * TWO_32) == xHi * nHi * TWO_64;
    assert (xHi * TWO_32) * nLo == (xHi * nLo) * TWO_32;
    assert xLo * (nHi * TWO_32) == (xLo * nHi) * TWO_32;
  }

  lemma Upper(product: nat, ac: nat, ad: nat, bc: nat, bd: nat)
    requires product == ac * TWO_64 + (ad + bc) * TWO_32 + bd
    ensures var mid34 := bd / TWO_32 + bc % TWO_32 + ad % TWO_32;
      product / TWO_64 == ac + bc / TWO_32 + ad / TWO_32 + mid34 / TWO_32
  {
    var mid34 := bd / TWO_32 + bc % TWO_32 + ad % TWO_32;
    var q := ac + bc / TWO_32 + ad / TWO_32 + mid34 / TWO_32;
    var r := mid34 % TWO_32 * TWO_32 + bd % TWO_32;
    RemainderIs(product, q, r, TWO_64);
  }

  // ---------------------------------------------------------------- Golomb-Rice codes

  function Ones(n: nat): seq<bool> { seq(n, _ => true) }

  /** The low bits of a number, most significant first. */
  function LowBits(x: nat, n: nat): (s: seq<bool>)
    ensures |s| == n
  {
    if n == 0 then [] else LowBits(x / 2, n - 1) + [x % 2 == 1]
  }

  function BitsValue(s: seq<bool>): nat {
    if s == [] then 0 else 2 * BitsValue(s[..|s| - 1]) + (if s[|s| - 1] then 1 else 0)
  }

  lemma {:induction false} BitsOfLow(x: nat, n: nat)
    ensures BitsValue(LowBits(x, n)) == x % Pow2(n)
    decreases n
  {
    if n > 0 {
      var s := LowBits(x, n);
      BitsOfLow(x / 2, n - 1);
      assert s[..n - 1] == LowBits(x / 2, n - 1);
      HalveRemainder(x, Pow2(n - 1));
    }
  }

  /** The bits of the remainder, by their weights: the first is worth 2^(n-1). */
  lemma {:induction false} LowBitsAt(x: nat, n: nat, i: nat)
    requires i < n
    ensures LowBits(x, n)[i] <==> Div(x, Pow2(n - 1 - i)) % 2 == 1
    decreases n
  {
    if i < n - 1 {
      LowBitsAt(x / 2, n - 1, i);
      HalveThenDivide(x, Pow2(n - 2 - i));
    }
  }

  lemma HalveThenDivide(x: nat, p: nat)
    requires p > 0
    ensures x / (2 * p) == x / 2 / p
  {
    var q, r := x / 2 / p, x / 2 % p;
    assert x / 2 == q * p + r;
    assert q * (2 * p) == 2 * (q * p);
    RemainderIs(x, q, 2 * r + x % 2, 2 * p);
  }

  lemma HalveRemainder(x: nat, p: nat)
    requires p > 0
    ensures x % (2 * p) == 2 * (x / 2 % p) + x % 2
  {
    var q, r := x / 2 / p, x / 2 % p;
    assert x / 2 == q * p + r;
    assert q * (2 * p) == 2 * (q * p);
    RemainderIs(x, q, 2 * r + x % 2, 2 * p);
  }

  /** The quotient in unary, a zero, and the remainder in P bits. */
  function Code(P: nat, x: nat): (s: seq<bool>)
    ensures s != []
  {
    Ones(Div(x, Pow2(P))) + [false] + LowBits(x, P)
  }

  /** Writes a run of ones, sixty-four at a time. */
  method WriteOnes(out0: seq<bool>, n: nat) returns (out: seq<bool>)
    ensures out == out0 + Ones(n)
  {
    out := out0;
    var q := n;
    while q > 0
      invariant 0 <= q <= n && out == out0 + Ones(n - q)
    {
      var nbits := if q <= 64 then q else 64;
      assert Ones(n - q) + Ones(nbits) == Ones(n - q + nbits);
      out := out + Ones(nbits);
      q := q - nbits;
    }
  }

  method GolombRiceEncode(out0: seq<bool>, P: nat, x: nat) returns (out: seq<bool>)
    ensures out == out0 + Code(P, x)
  {
    hide LowBits, Pow2;
    out := WriteOnes(out0, Div(x, Pow2(P)));
    out := out + [false];
    out := out + LowBits(x, P);
  }

  /** The length of the run of ones at a position; None if the stream ends in it. */
  function Unary(bits: seq<bool>, pos: nat): (q: Option<nat>)
    requires pos <= |bits|
    ensures q.Some? ==> pos + q.value < |bits|
    decreases |bits| - pos
  {
    if pos == |bits| then None
    else if !bits[pos] then Some(0)
    else
      var rest := Unary(bits, pos + 1);
      if rest.None? then None else Some(1 + rest.value)
  }

  /** A decoded number and where the stream goes on. */
  datatype Decoded = Decoded(x: nat, next: nat)

  function Decode(bits: seq<bool>, pos: nat, P: nat): (d: Option<Decoded>)
    requires pos <= |bits|
    ensures d.Some? ==> pos < d.value.next <= |bits|
  {
    var q := Unary(bits, pos);
    if q.None? || pos + q.value + 1 + P > |bits| then None
    else
      var at := pos + q.value + 1;
      Some(Decoded((q.value * Pow2(P) + BitsValue(bits[at..at + P])) % TWO_64, at + P))
  }

  method GolombRiceDecode(bits: seq<bool>, pos: nat, P: nat) returns (d: Option<Decoded>)
    requires pos <= |bits|
    ensures d == Decode(bits, pos, P)
  {
    var q, at := 0, pos;
    while at < |bits| && bits[at]
      invariant pos <= at <= |bits| && q == at - pos
      invariant Unary(bits, pos) == (if Unary(bits, at).None? then None else Some(q + Unary(bits, at).value))
    {
      q, at := q + 1, at + 1;
    }
    if at == |bits| || at + 1 + P > |bits| { return None; }
    return Some(Decoded((q * Pow2(P) + BitsValue(bits[at + 1..at + 1 + P])) % TWO_64, at + 1 + P));
  }

  lemma {:induction false} UnaryOfOnes(bits: seq<bool>, pos: nat, q: nat)
    requires pos + q < |bits| && !bits[pos + q] && forall i :: pos <= i < pos + q ==> bits[i]
    ensures Unary(bits, pos) == Some(q)
    decreases q
  {
    if q > 0 { UnaryOfOnes(bits, pos + 1, q - 1); }
  }

  /** Decoding what was encoded gives it back and stops where it ends. */
  lemma CodeRoundTrip(bits: seq<bool>, pos: nat, P: nat, x: nat)
    requires x < TWO_64 && pos + |Code(P, x)| <= |bits| && bits[pos..pos + |Code(P, x)|] == Code(P, x)
    ensures Decode(bits, pos, P) == Some(Decoded(x, pos + |Code(P, x)|))
  {
    hide LowBits, BitsValue, Pow2, Unary;
    var q, code := Div(x, Pow2(P)), Code(P, x);
    CodeShape(P, x);
    forall i | pos <= i < pos + q ensures bits[i] { assert bits[pos..pos + |code|][i - pos] == code[i - pos]; }
    assert bits[pos..pos + |code|][q] == code[q];
    UnaryOfOnes(bits, pos, q);
    var at := pos + q + 1;
    assert bits[at..at + P] == bits[pos..pos + |code|][q + 1..];
    BitsOfLow(x, P);
    assert x == q * Pow2(P) + x % Pow2(P);
    RemainderIs(x, 0, x, TWO_64);
  }

  lemma CodeShape(P: nat, x: nat)
    ensures var q, code := Div(x, Pow2(P)), Code(P, x);
      && |code| == q + 1 + P && !code[q] && code[q + 1..] == LowBits(x, P)
      && forall i :: 0 <= i < q ==> code[i]
  {
    hide LowBits, Pow2;
  }

  // ---------------------------------------------------------------- coded sets

  predicate Sorted(s: seq<nat>) {
    forall i, j :: 0 <= i < j < |s| ==> s[i] <= s[j]
  }

  /** The differences of a sorted list, coded one after the other. */
  function Encoded(P: nat, values: seq<nat>, last: nat): seq<bool>
    requires Follows(values, last)
    decreases |values|
  {
    if values == [] then [] else Code(P, values[0] - last) + Encoded(P, values[1..], values[0])
  }

  function LastOf(values: seq<nat>, last: nat): nat { if values == [] then last else values[|values| - 1] }

  predicate Follows(values: seq<nat>, last: nat) { Sorted(values) && (values != [] ==> last <= values[0]) }

  lemma {:induction false} EncodedSnoc(P: nat, values: seq<nat>, last: nat, x: nat)
    requires Follows(values, last) && LastOf(values, last) <= x
    ensures Follows(values + [x], last)
    ensures Encoded(P, values + [x], last) == Encoded(P, values, last) + Code(P, x - LastOf(values, last))
    decreases |values|
  {
    hide Code, Encoded, Follows, LastOf;
    SortedSnoc(values, last, x);
    var all := values + [x];
    EncodedStep(P, all, last);
    if values == [] {
      assert all[1..] == [];
      EncodedNone(P, x);
      EncodedNone(P, last);
      LastOfNone(last);
    } else {
      assert all[1..] == values[1..] + [x];
      LastOfRest(values, last);
      EncodedStep(P, values, last);
      EncodedSnoc(P, values[1..], values[0], x);
      Regroup(Code(P, values[0] - last), Encoded(P, values[1..], values[0]), Code(P, x - LastOf(values, last)));
    }
  }

  lemma Regroup<T>(a: seq<T>, b: seq<T>, c: seq<T>)
    ensures a + (b + c) == (a + b) + c
  {
  }

  lemma LastOfNone(last: nat)
    ensures LastOf([], last) == last
  {
  }

  lemma LastOfRest(values: seq<nat>, last: nat)
    requires values != []
    ensures LastOf(values[1..], values[0]) == LastOf(values, last)
  {
  }

  lemma EncodedNone(P: nat, last: nat)
    ensures Encoded(P, [], last) == []
  {
  }

  lemma EncodedStep(P: nat, values: seq<nat>, last: nat)
    requires Follows(values, last) && values != []
    ensures last <= values[0] && Follows(values[1..], values[0])
    ensures Encoded(P, values, last) == Code(P, values[0] - last) + Encoded(P, values[1..], values[0])
  {
    hide Code;
  }

  lemma SortedSnoc(values: seq<nat>, last: nat, x: nat)
    requires Follows(values, last) && LastOf(values, last) <= x
    ensures Follows(values + [x], last)
  {
    forall i | 0 <= i < |values| ensures values[i] <= x {
      assert i < |values| - 1 ==> values[i] <= values[|values| - 1];
    }
  }

  /** Bits whose front is the coding of the values that are still to be read. */
  ghost predicate Codes(bits: seq<bool>, pos: nat, P: nat, values: seq<nat>, last: nat) {
    && Follows(values, last)
    && (forall i :: 0 <= i < |values| ==> values[i] < TWO_64)
    && pos + |Encoded(P, values, last)| <= |bits|
    && bits[pos..pos + |Encoded(P, values, last)|] == Encoded(P, values, last)
  }

  /** Reading one difference gives the next value. */
  lemma NextValue(bits: seq<bool>, pos: nat, P: nat, values: seq<nat>, last: nat)
    requires Codes(bits, pos, P, values, last) && values != []
    ensures Decode(bits, pos, P).Some? && last + Decode(bits, pos, P).value.x == values[0]
    ensures Codes(bits, Decode(bits, pos, P).value.next, P, values[1..], values[0])
  {
    hide Code, Decode;
    var x := values[0] - last;
    var code, rest := Code(P, x), Encoded(P, values[1..], values[0]);
    var all := Encoded(P, values, last);
    assert all == code + rest;
    assert bits[pos..pos + |code|] == all[..|code|] == code;
    CodeRoundTrip(bits, pos, P, x);
    assert bits[pos + |code|..pos + |code| + |rest|] == all[|code|..] == rest;
  }

  /** Sorts by insertion. */
  method SortHashes(s: seq<nat>) returns (sorted: seq<nat>)
    ensures Sorted(sorted) && multiset(sorted) == multiset(s) && |sorted| == |s|
    ensures forall x :: x in sorted <==> x in s
  {
    sorted := [];
    var i := 0;
    while i < |s|
      invariant 0 <= i <= |s| && Sorted(sorted) && multiset(sorted) == multiset(s[..i]) && |sorted| == i
    {
      sorted := InsertSorted(sorted, s[i]);
      assert s[..i + 1] == s[..i] + [s[i]];
      i := i + 1;
    }
    assert s[..i] == s;
    forall x ensures x in sorted <==> x in s {
      assert x in sorted <==> x in multiset(sorted);
      assert x in s <==> x in multiset(s);
    }
  }

  method InsertSorted(s: seq<nat>, x: nat) returns (r: seq<nat>)
    requires Sorted(s)
    ensures Sorted(r) && multiset(r) == multiset(s) + multiset{x} && |r| == |s| + 1
  {
    var k := 0;
    while k < |s| && s[k] <= x
      invariant 0 <= k <= |s| && forall j :: 0 <= j < k ==> s[j] <= x
    {
      k := k + 1;
    }
    r := s[..k] + [x] + s[k..];
    InsertedSorted(s, k, x);
  }

  lemma InsertedSorted(s: seq<nat>, k: nat, x: nat)
    requires Sorted(s) && k <= |s| && (k < |s| ==> x < s[k]) && forall j :: 0 <= j < k ==> s[j] <= x
    ensures var r := s[..k] + [x] + s[k..]; Sorted(r) && multiset(r) == multiset(s) + multiset{x}
  {
    var front, back := s[..k], s[k..];
    SplitSorted(s, k);
    hide Sorted;
    SortedOne(x);
    SortedJoin(front, [x]);
    SortedJoin(front + [x], back);
    SplitCounts(s, k, x);
  }

  lemma SplitSorted(s: seq<nat>, k: nat)
    requires Sorted(s) && k <= |s|
    ensures Sorted(s[..k]) && Sorted(s[k..])
  {
  }

  lemma SortedOne(x: nat)
    ensures Sorted([x])
  {
  }

  lemma SplitCounts(s: seq<nat>, k: nat, x: nat)
    requires k <= |s|
    ensures multiset(s[..k] + [x] + s[k..]) == multiset(s) + multiset{x}
  {
    assert s == s[..k] + s[k..];
    assert multiset(s[..k] + s[k..]) == multiset(s[..k]) + multiset(s[k..]);
    assert multiset(s[..k] + [x] + s[k..]) == multiset(s[..k] + [x]) + multiset(s[k..]);
  }

  lemma SortedJoin(s: seq<nat>, t: seq<nat>)
    requires Sorted(s) && Sorted(t) && (s != [] && t != [] ==> s[|s| - 1] <= t[0])
    ensures Sorted(s + t)
  {
    var r := s + t;
    forall i, j | 0 <= i < j < |r| ensures r[i] <= r[j] {
      if i < |s| && j >= |s| { assert s[i] <= s[|s| - 1] && t[0] <= t[j - |s|]; }
    }
  }

  // ---------------------------------------------------------------- filters

  type Element = nat

  /** A filter: its parameters, the number of elements, and the coded differences, padded to bytes. */
  class Filter {
    const hash: Element -> nat
    const P: nat
    const N: nat
    const F: nat
    const encoded: seq<bool>

    /** What reading the filter yields: for one that was built, the hashes of its elements in order. */
    ghost const values: seq<nat>

    /** N numbers can be read, and these are their sums. */
    ghost predicate Valid() {
      Skip(encoded, 0, P, N).Some? && values == Totals(encoded, 0, P, N, 0)
    }

    /** The differences of sorted values, coded and padded to bytes. */
    ghost predicate Built() {
      |values| == N && Codes(encoded, 0, P, values, 0) && |encoded| == (|Encoded(P, values, 0)| + 7) / 8 * 8
    }

    /** Codes a set of fewer than 2^32 elements. */
    constructor (hash: Element -> nat, P: nat, M: nat, elements: seq<Element>)
      requires |elements| < TWO_32 && M < TWO_32
      requires forall e :: hash(e) < TWO_64
      ensures Valid() && Built() && this.hash == hash && this.P == P && N == |elements| && F == N * M
      ensures F < TWO_64 && Sorted(values)
      ensures forall v :: v in values <==> exists i :: 0 <= i < |elements| && Ranged(hash, F, elements[i]) == v
    {
      hide Encoded, Ranged, Skip, Totals;
      var n := |elements|;
      HalfProduct(n, M);
      var f: nat := n * M;
      var hashed := BuildHashedSet(hash, f, elements);
      ZeroFollows(hashed);
      var bits := EncodeAll(P, hashed);
      var pad := (8 - |bits| % 8) % 8;
      this.hash, this.P, N, F, values := hash, P, n, f, hashed;
      encoded := bits + seq(pad, _ => false);
      new;
      assert encoded[0..|bits|] == bits;
      CodedSkips(encoded, 0, P, values, 0);
      CodedTotals(encoded, 0, P, values, 0);
    }

    /** Takes over a stream from which N numbers can be read. */
    constructor Of(hash: Element -> nat, P: nat, M: nat, N: nat, bits: seq<bool>)
      requires Skip(bits, 0, P, N).Some?
      ensures Valid() && this.hash == hash && this.P == P && this.N == N && F == N * M && encoded == bits
    {
      this.hash, this.P, this.N, F := hash, P, N, N * M;
      encoded, values := bits, Totals(bits, 0, P, N, 0);
    }

    /** The hash of an element mapped below F. */
    method HashToRange(e: Element) returns (h: nat)
      requires hash(e) < TWO_64 && F < TWO_64
      ensures h == Ranged(hash, F, e)
    {
      h := MapIntoRange(hash(e), F);
    }

    /** Merges the sorted queries with the values read, which never run out: true exactly if they have one
        in common that is not below a value read before it.  In a filter that was built no value is. */
    method MatchInternal(queries: seq<nat>) returns (found: bool)
      requires Valid() && Sorted(queries)
      ensures found <==> Hit(queries, values)
      ensures Sorted(values) ==>
        (found <==> exists i, j :: 0 <= i < |queries| && 0 <= j < |values| && queries[i] == values[j])
    {
      hide Decode, Scanned, NoHit, Hit, Skip, Totals;
      var value: nat, at, index, i := 0, 0, 0, 0;
      NothingMerged(queries, values);
      SumsRead(encoded, 0, P, N, 0);
      assert values[0..] == values;
      if Sorted(values) { SortedHits(queries, values); }
      while i < N
        invariant 0 <= i <= N == |values| && 0 <= at <= |encoded| && 0 <= index <= |queries|
        invariant Skip(encoded, at, P, N - i).Some? && values[i..] == Totals(encoded, at, P, N - i, value)
        invariant Scanned(queries, values, i, index) && NoHit(queries, values, i)
      {
        NextTotal(encoded, at, P, N - i, value);
        assert values[i..][0] == values[i] && values[i..][1..] == values[i + 1..];
        var d := GolombRiceDecode(encoded, at, P);
        value, at := (value + d.value.x) % TWO_64, d.value.next;
        ScanValue(queries, values, i, index);
        while index < |queries| && queries[index] < value
          invariant 0 <= index <= |queries| && Scanning(queries, values, i, index)
        {
          ScanPast(queries, values, i, index);
          index := index + 1;
        }
        if index == |queries| {
          ScannedAll(queries, values, i);
          return false;
        }
        if queries[index] == value {
          ScanHit(queries, values, i, index);
          return true;
        }
        ScanNext(queries, values, i, index);
        i := i + 1;
      }
      NoneHit(queries, values);
      return false;
    }

    /** Whether any of the elements is in the filter, as far as hashes tell.  In a filter that was built:
        never false for one that is. */
    method MatchAny(elements: seq<Element>) returns (found: bool)
      requires Valid() && F < TWO_64 && forall e :: hash(e) < TWO_64
      ensures found <==> exists i, k ::
        0 <= i < |elements| && 0 <= k < |values| && Ranged(hash, F, elements[i]) == values[k] && Peak(values, k)
      ensures Sorted(values) ==>
        (found <==> exists i :: 0 <= i < |elements| && Ranged(hash, F, elements[i]) in values)
    {
      hide Skip, Totals, Peak, Ranged;
      var queries := BuildHashedSet(hash, F, elements);
      found := MatchInternal(queries);
      if Sorted(values) { SortedPeaks(values); }
      if found {
        ghost var i, k :| HitAt(queries, values, i, k);
        assert queries[i] in queries;
        ghost var j :| 0 <= j < |elements| && Ranged(hash, F, elements[j]) == queries[i];
      } else {
        forall i, k | 0 <= i < |elements| && 0 <= k < |values| && Ranged(hash, F, elements[i]) == values[k]
          ensures !Peak(values, k)
        {
          assert Ranged(hash, F, elements[i]) in queries;
          ghost var a :| 0 <= a < |queries| && queries[a] == Ranged(hash, F, elements[i]);
          assert !HitAt(queries, values, a, k);
        }
      }
    }
  }

  function Ranged(hash: Element -> nat, f: nat, e: Element): nat { hash(e) * f / TWO_64 }

  /** Hashes are mapped to [0, f) in proportion: the place of a hash among all 64-bit numbers, rounded down. */
  lemma RangedIs(hash: Element -> nat, f: nat, e: Element)
    requires hash(e) < TWO_64 && f < TWO_64
    ensures var r := Ranged(hash, f, e);
      r * TWO_64 <= hash(e) * f < (r + 1) * TWO_64 && (f > 0 ==> r < f) && (f == 0 ==> r == 0)
  {
    var p := hash(e) * f;
    assert p == p / TWO_64 * TWO_64 + p % TWO_64;
    if f > 0 {
      Distribute(hash(e), TWO_64 - hash(e), f);
      MultiplyGrows(1, TWO_64 - hash(e), f);
      Commute(TWO_64, f);
      QuotientBelow(p, TWO_64, f);
    }
  }

  /** The sorted hashes of a list of elements. */
  method BuildHashedSet(hash: Element -> nat, f: nat, elements: seq<Element>) returns (hashed: seq<nat>)
    requires f < TWO_64 && forall e :: hash(e) < TWO_64
    ensures Sorted(hashed) && |hashed| == |elements|
    ensures forall v :: v in hashed <==> exists i :: 0 <= i < |elements| && Ranged(hash, f, elements[i]) == v
    ensures forall i :: 0 <= i < |hashed| ==> hashed[i] < TWO_64
  {
    var raw: seq<nat> := [];
    var i := 0;
    while i < |elements|
      invariant 0 <= i <= |elements| && |raw| == i
      invariant forall j :: 0 <= j < i ==> raw[j] == Ranged(hash, f, elements[j])
    {
      var h := MapIntoRange(hash(elements[i]), f);
      raw := raw + [h];
      i := i + 1;
    }
    hashed := SortHashes(raw);
    forall v ensures v in hashed <==> exists i :: 0 <= i < |elements| && Ranged(hash, f, elements[i]) == v {
      if v in raw {
        var j :| 0 <= j < |raw| && raw[j] == v;
        assert Ranged(hash, f, elements[j]) == v;
      }
      if i :| 0 <= i < |elements| && Ranged(hash, f, elements[i]) == v {
        assert raw[i] == v;
      }
    }
    forall i | 0 <= i < |hashed| ensures hashed[i] < TWO_64 {
      assert hashed[i] in hashed;
      var j :| 0 <= j < |elements| && Ranged(hash, f, elements[j]) == hashed[i];
      RangeBound(hash(elements[j]), f);
    }
  }

  lemma RangeBound(x: nat, f: nat)
    requires x < TWO_64 && f < TWO_64
    ensures x * f / TWO_64 < TWO_64
  {
    Distribute(x, TWO_64 - x, f);
    QuotientBelow(x * f, TWO_64, f + 1);
  }

  lemma ZeroFollows(values: seq<nat>)
    requires Sorted(values)
    ensures Follows(values, 0)
  {
  }

  /** Codes the differences one by one. */
  method EncodeAll(P: nat, values: seq<nat>) returns (bits: seq<bool>)
    requires Follows(values, 0)
    ensures bits == Encoded(P, values, 0)
  {
    hide Code, Encoded;
    bits := [];
    var last, i := 0, 0;
    NothingEncoded(P, values);
    while i < |values|
      invariant 0 <= i <= |values| && last == LastOf(values[..i], 0)
      invariant Follows(values[..i], 0) && bits == Encoded(P, values[..i], 0)
    {
      var value := values[i];
      EncodedSnoc(P, values[..i], 0, value);
      assert values[..i] + [value] == values[..i + 1];
      bits := GolombRiceEncode(bits, P, value - last);
      last := value;
      i := i + 1;
    }
    assert values[..i] == values;
  }

  lemma NothingEncoded(P: nat, values: seq<nat>)
    ensures values[..0] == [] && Encoded(P, [], 0) == []
  {
  }

  // ---------------------------------------------------------------- merging

  /** No value before this one is above it. */
  predicate Peak(values: seq<nat>, k: nat)
    requires k < |values|
  {
    forall j :: 0 <= j < k ==> values[j] <= values[k]
  }

  predicate HitAt(queries: seq<nat>, values: seq<nat>, i: int, k: int) {
    0 <= i < |queries| && 0 <= k < |values| && queries[i] == values[k] && Peak(values, k)
  }

  ghost predicate Hit(queries: seq<nat>, values: seq<nat>) {
    exists i, k :: HitAt(queries, values, i, k)
  }

  predicate NoHit(queries: seq<nat>, values: seq<nat>, n: nat)
    requires n <= |values|
  {
    forall i, k :: 0 <= i < |queries| && 0 <= k < n && queries[i] == values[k] ==> !Peak(values, k)
  }

  /** One of the first `n` values is above. */
  predicate Below(x: nat, values: seq<nat>, n: nat)
    requires n <= |values|
  {
    exists b :: 0 <= b < n && x < values[b]
  }

  /** Queries before `index` are below one of the first `n` values, the others above all of them. */
  predicate Scanned(queries: seq<nat>, values: seq<nat>, n: nat, index: nat) {
    && n <= |values| && index <= |queries|
    && (forall a :: 0 <= a < index ==> Below(queries[a], values, n))
    && forall a, b :: index <= a < |queries| && 0 <= b < n ==> queries[a] > values[b]
  }

  /** The same while value `n` is being compared. */
  predicate Scanning(queries: seq<nat>, values: seq<nat>, n: nat, index: nat) {
    && n < |values| && index <= |queries|
    && (forall a :: 0 <= a < index ==> Below(queries[a], values, n + 1))
    && forall a, b :: index <= a < |queries| && 0 <= b < n ==> queries[a] > values[b]
  }

  lemma NothingMerged(queries: seq<nat>, values: seq<nat>)
    ensures Scanned(queries, values, 0, 0) && NoHit(queries, values, 0)
  {
  }

  lemma ScanValue(queries: seq<nat>, values: seq<nat>, n: nat, index: nat)
    requires Scanned(queries, values, n, index) && n < |values|
    ensures Scanning(queries, values, n, index)
  {
  }

  lemma ScanPast(queries: seq<nat>, values: seq<nat>, n: nat, index: nat)
    requires Scanning(queries, values, n, index) && index < |queries| && queries[index] < values[n]
    ensures Scanning(queries, values, n, index + 1)
  {
  }

  lemma ScanHit(queries: seq<nat>, values: seq<nat>, n: nat, index: nat)
    requires Scanning(queries, values, n, index) && index < |queries| && queries[index] == values[n]
    ensures Hit(queries, values)
  {
    assert HitAt(queries, values, index, n);
  }

  /** A query passed over is below an earlier value, so it cannot meet a later one that is not. */
  lemma PassedOver(queries: seq<nat>, values: seq<nat>, n: nat, index: nat, a: nat, k: nat)
    requires Scanning(queries, values, n, index) && a < index && n <= k < |values| && queries[a] == values[k]
    ensures !Peak(values, k)
  {
    var b :| 0 <= b < n + 1 && queries[a] < values[b];
    assert values[b] > values[k];
  }

  lemma ScanNext(queries: seq<nat>, values: seq<nat>, n: nat, index: nat)
    requires Scanning(queries, values, n, index) && NoHit(queries, values, n) && Sorted(queries)
    requires index < |queries| && queries[index] > values[n]
    ensures Scanned(queries, values, n + 1, index) && NoHit(queries, values, n + 1)
  {
    hide Peak;
    forall a | index <= a < |queries| ensures queries[a] > values[n] { assert queries[index] <= queries[a]; }
    forall i, k | 0 <= i < |queries| && 0 <= k < n + 1 && queries[i] == values[k] ensures !Peak(values, k) {
      if k == n { PassedOver(queries, values, n, index, i, k); }
    }
  }

  lemma ScannedAll(queries: seq<nat>, values: seq<nat>, n: nat)
    requires Scanning(queries, values, n, |queries|) && NoHit(queries, values, n)
    ensures !Hit(queries, values)
  {
    hide Peak;
    forall i, k | 0 <= i < |queries| && 0 <= k < |values| && queries[i] == values[k] ensures !Peak(values, k) {
      if k >= n { PassedOver(queries, values, n, |queries|, i, k); }
    }
    NoneHit(queries, values);
  }

  lemma NoneHit(queries: seq<nat>, values: seq<nat>)
    requires NoHit(queries, values, |values|)
    ensures !Hit(queries, values)
  {
    hide Peak;
  }

  lemma SortedPeaks(values: seq<nat>)
    requires Sorted(values)
    ensures forall k :: 0 <= k < |values| ==> Peak(values, k)
  {
  }

  lemma SortedHits(queries: seq<nat>, values: seq<nat>)
    requires Sorted(values)
    ensures Hit(queries, values) <==>
      exists i, j :: 0 <= i < |queries| && 0 <= j < |values| && queries[i] == values[j]
  {
    SortedPeaks(values);
    hide Peak, Sorted;
    if i, j :| 0 <= i < |queries| && 0 <= j < |values| && queries[i] == values[j] {
      assert HitAt(queries, values, i, j);
    }
    if Hit(queries, values) { var i, k :| HitAt(queries, values, i, k); }
  }

  predicate Met(values: seq<nat>, x: nat) {
    exists j :: 0 <= j < |values| && values[j] == x && Peak(values, j)
  }

  /** Every value is met somewhere with nothing above it before. */
  predicate AllPeak(values: seq<nat>) {
    forall k :: 0 <= k < |values| ==> Met(values, values[k])
  }

  ghost predicate Shared(queries: seq<nat>, values: seq<nat>) {
    exists i, j :: 0 <= i < |queries| && 0 <= j < |values| && queries[i] == values[j]
  }

  /** Matching finds every value in common, whatever is asked. */
  ghost predicate MatchesAll(values: seq<nat>) {
    forall queries: seq<nat> :: Sorted(queries) ==> (Hit(queries, values) <==> Shared(queries, values))
  }

  /** Exactly these filters are matched fully.  The sums of a received filter can wrap, and then it need not be
      one of them. */
  lemma MatchesAllIff(values: seq<nat>)
    ensures MatchesAll(values) <==> AllPeak(values)
  {
    hide Peak;
    if AllPeak(values) {
      forall queries: seq<nat> | Sorted(queries) ensures Hit(queries, values) <==> Shared(queries, values) {
        if Hit(queries, values) { var i, k :| HitAt(queries, values, i, k); }
        if i, k :| 0 <= i < |queries| && 0 <= k < |values| && queries[i] == values[k] {
          var j :| 0 <= j < |values| && values[j] == values[k] && Peak(values, j);
          assert HitAt(queries, values, i, j);
        }
      }
    }
    if MatchesAll(values) {
      forall k | 0 <= k < |values| ensures Met(values, values[k]) {
        var queries := [values[k]];
        assert Sorted(queries) && queries[0] == values[k];
        assert Shared(queries, values);
        var i, j :| HitAt(queries, values, i, j);
      }
    }
  }

  // ---------------------------------------------------------------- received filters

  /** Where the stream stands after so many numbers; None if it ends before. */
  function Skip(bits: seq<bool>, pos: nat, P: nat, n: nat): (r: Option<nat>)
    requires pos <= |bits|
    ensures r.Some? ==> r.value <= |bits|
    decreases n
  {
    if n == 0 then Some(pos)
    else if Decode(bits, pos, P).None? then None
    else Skip(bits, Decode(bits, pos, P).value.next, P, n - 1)
  }

  /** A received filter must hold exactly N numbers and no byte more. */
  method CheckEncoded(bits: seq<bool>, P: nat, N: nat) returns (ok: bool)
    requires |bits| % 8 == 0
    ensures ok <==> Skip(bits, 0, P, N).Some? && |bits| - Skip(bits, 0, P, N).value < 8
  {
    hide Decode;
    var at, i := 0, 0;
    while i < N
      invariant 0 <= i <= N && 0 <= at <= |bits|
      invariant Skip(bits, at, P, N - i) == Skip(bits, 0, P, N)
    {
      var d := GolombRiceDecode(bits, at, P);
      if d.None? { return false; }
      at := d.value.next;
      i := i + 1;
    }
    return |bits| - at < 8;
  }

  /** The sums, on 64 bits, of the numbers read. */
  function Totals(bits: seq<bool>, pos: nat, P: nat, n: nat, last: nat): seq<nat>
    requires pos <= |bits| && Skip(bits, pos, P, n).Some?
    decreases n
  {
    if n == 0 then []
    else
      var d := Decode(bits, pos, P).value;
      var value := (last + d.x) % TWO_64;
      [value] + Totals(bits, d.next, P, n - 1, value)
  }

  lemma {:induction false} SumsRead(bits: seq<bool>, pos: nat, P: nat, n: nat, last: nat)
    requires pos <= |bits| && Skip(bits, pos, P, n).Some?
    ensures |Totals(bits, pos, P, n, last)| == n
    decreases n
  {
    hide Decode;
    if n > 0 {
      var d := Decode(bits, pos, P).value;
      SumsRead(bits, d.next, P, n - 1, (last + d.x) % TWO_64);
    }
  }

  /** While numbers are left the stream does not run out. */
  lemma NextTotal(bits: seq<bool>, pos: nat, P: nat, n: nat, last: nat)
    requires pos <= |bits| && n > 0 && Skip(bits, pos, P, n).Some?
    ensures Decode(bits, pos, P).Some?
    ensures var d := Decode(bits, pos, P).value;
      && Skip(bits, d.next, P, n - 1).Some? && var all := Totals(bits, pos, P, n, last);
      && all != [] && all[0] == (last + d.x) % TWO_64 && all[1..] == Totals(bits, d.next, P, n - 1, all[0])
  {
    hide Decode;
  }

  /** A received filter, unless its stream does not hold exactly N numbers. */
  method Receive(hash: Element -> nat, P: nat, M: nat, N: nat, bits: seq<bool>) returns (f: Option<Filter>)
    requires |bits| % 8 == 0
    ensures f.Some? <==> N < TWO_32 && Skip(bits, 0, P, N).Some? && |bits| - Skip(bits, 0, P, N).value < 8
    ensures f.Some? ==> fresh(f.value) && f.value.Valid() && f.value.hash == hash && f.value.F == N * M
    ensures f.Some? ==> f.value.values == Totals(bits, 0, P, N, 0)
  {
    hide Skip, Totals;
    if N >= TWO_32 { return None; }
    var ok := CheckEncoded(bits, P, N);
    if !ok { return None; }
    var filter := new Filter.Of(hash, P, M, N, bits);
    return Some(filter);
  }

  /** It happens: two differences that together pass 2^64 make a stream that is accepted, and the second value
      is not found. */
  lemma WrappedMisses(P: nat, x: nat, y: nat, pad: seq<bool>)
    requires x < TWO_64 && y < TWO_64 && x + y >= TWO_64
    ensures var bits := Code(P, x) + Code(P, y) + pad;
      && Skip(bits, 0, P, 2) == Some(|Code(P, x)| + |Code(P, y)|)
      && Totals(bits, 0, P, 2, 0) == [x, x + y - TWO_64] && !MatchesAll([x, x + y - TWO_64])
  {
    hide Code, Decode, MatchesAll;
    var cx, cy := Code(P, x), Code(P, y);
    var bits := cx + cy + pad;
    assert bits[0..|cx|] == cx && bits[|cx|..|cx| + |cy|] == cy;
    CodeRoundTrip(bits, 0, P, x);
    CodeRoundTrip(bits, |cx|, P, y);
    var next := |cx| + |cy|;
    assert Skip(bits, |cx|, P, 1) == Skip(bits, next, P, 0) == Some(next);
    RemainderIs(x, 0, x, TWO_64);
    RemainderIs(x + y, 1, x + y - TWO_64, TWO_64);
    assert Totals(bits, |cx|, P, 1, x) == [x + y - TWO_64];
    NotMet(x, x + y - TWO_64);
    MatchesAllIff([x, x + y - TWO_64]);
  }

  lemma NotMet(x: nat, y: nat)
    requires y < x
    ensures !AllPeak([x, y])
  {
    var values := [x, y];
    assert values[0] == x && values[1] == y;
    assert !Peak(values, 1);
    assert !Met(values, values[1]);
  }

  lemma {:induction false} CodedTotals(bits: seq<bool>, pos: nat, P: nat, values: seq<nat>, last: nat)
    requires Codes(bits, pos, P, values, last) && Skip(bits, pos, P, |values|).Some? && pos <= |bits|
    ensures Totals(bits, pos, P, |values|, last) == values
    decreases |values|
  {
    hide Decode, Code, Codes;
    if values != [] {
      NextValue(bits, pos, P, values, last);
      CodedBelow(bits, pos, P, values, last);
      NextTotal(bits, pos, P, |values|, last);
      CodedTotals(bits, Decode(bits, pos, P).value.next, P, values[1..], values[0]);
      assert values == [values[0]] + values[1..];
    }
  }

  lemma CodedBelow(bits: seq<bool>, pos: nat, P: nat, values: seq<nat>, last: nat)
    requires Codes(bits, pos, P, values, last) && values != []
    ensures values[0] % TWO_64 == values[0]
  {
  }

  lemma {:induction false} CodedSkips(bits: seq<bool>, pos: nat, P: nat, values: seq<nat>, last: nat)
    requires Codes(bits, pos, P, values, last)
    ensures Skip(bits, pos, P, |values|) == Some(pos + |Encoded(P, values, last)|)
    decreases |values|
  {
    hide Decode, Code, Codes;
    CodesFit(bits, pos, P, values, last);
    if values != [] {
      NextValue(bits, pos, P, values, last);
      var next := Decode(bits, pos, P).value.next;
      CodedSkips(bits, next, P, values[1..], values[0]);
      NextPosition(bits, pos, P, values, last);
    }
  }

  lemma CodesFit(bits: seq<bool>, pos: nat, P: nat, values: seq<nat>, last: nat)
    requires Codes(bits, pos, P, values, last)
    ensures Follows(values, last) && pos + |Encoded(P, values, last)| <= |bits|
  {
    hide Encoded;
  }

  lemma NextPosition(bits: seq<bool>, pos: nat, P: nat, values: seq<nat>, last: nat)
    requires Codes(bits, pos, P, values, last) && values != []
    ensures Decode(bits, pos, P) == Some(Decoded(values[0] - last, pos + |Code(P, values[0] - last)|))
  {
    hide Code, Decode;
    var x := values[0] - last;
    var code, all := Code(P, x), Encoded(P, values, last);
    assert bits[pos..pos + |code|] == all[..|code|] == code;
    CodeRoundTrip(bits, pos, P, x);
  }

  /** Every filter built is accepted when received. */
  lemma BuiltIsAccepted(f: Filter)
    requires f.Built()
    ensures Skip(f.encoded, 0, f.P, f.N).Some? && |f.encoded| - Skip(f.encoded, 0, f.P, f.N).value < 8
  {
    CodedSkips(f.encoded, 0, f.P, f.values, 0);
  }
}
