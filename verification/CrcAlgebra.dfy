/**
 What the CRC register means: the remainder of the transmitted polynomial, and which
 corruptions of a frame it can never miss.
 */
module CrcAlgebra {
  import opened Crc

  // ---------------------------------------------------------------- polynomials over GF(2)

  // Coefficient of x^k; the first element of p is the leading coefficient.
  function Coef(p: Bits, k: int): bool {
    0 <= k < |p| && p[|p| - 1 - k]
  }

  // Coefficient of x^k in the part of q * g that uses the j lowest terms of g.
  function PartialProduct(q: Bits, g: Bits, k: int, j: nat): bool {
    if j == 0 then false
    else PartialProduct(q, g, k, j - 1) != (Coef(g, j - 1) && Coef(q, k - (j - 1)))
  }

  function ProductCoef(q: Bits, g: Bits, k: int): bool {
    PartialProduct(q, g, k, |g|)
  }

  // d = q * g + r with deg r < deg g.
  ghost predicate Division(d: Bits, g: Bits, q: Bits, r: Bits) {
    |r| < |g| && forall k: nat :: Coef(d, k) == (ProductCoef(q, g, k) != Coef(r, k))
  }

  // x^16 + x^15 + x^2 + 1
  const GENERATOR: Bits :=
    [true, true, false, false, false, false, false, false, false,
     false, false, false, false, false, true, false, true]

  function Taps(q: Bits, k: int): bool {
    ((Coef(q, k) != Coef(q, k - 2)) != Coef(q, k - 15)) != Coef(q, k - 16)
  }

  lemma ProductByGenerator(q: Bits, k: int)
    ensures ProductCoef(q, GENERATOR, k) == Taps(q, k)
  {
    var g := GENERATOR;
    assert PartialProduct(q, g, k, 1) == Coef(q, k);
    assert PartialProduct(q, g, k, 3) == (Coef(q, k) != Coef(q, k - 2));
    assert PartialProduct(q, g, k, 4) == PartialProduct(q, g, k, 3);
    assert PartialProduct(q, g, k, 5) == PartialProduct(q, g, k, 4);
    assert PartialProduct(q, g, k, 6) == PartialProduct(q, g, k, 5);
    assert PartialProduct(q, g, k, 7) == PartialProduct(q, g, k, 6);
    assert PartialProduct(q, g, k, 8) == PartialProduct(q, g, k, 7);
    assert PartialProduct(q, g, k, 9) == PartialProduct(q, g, k, 8);
    assert PartialProduct(q, g, k, 10) == PartialProduct(q, g, k, 9);
    assert PartialProduct(q, g, k, 11) == PartialProduct(q, g, k, 10);
    assert PartialProduct(q, g, k, 12) == PartialProduct(q, g, k, 11);
    assert PartialProduct(q, g, k, 13) == PartialProduct(q, g, k, 12);
    assert PartialProduct(q, g, k, 14) == PartialProduct(q, g, k, 13);
    assert PartialProduct(q, g, k, 15) == PartialProduct(q, g, k, 14);
    assert PartialProduct(q, g, k, 16) == (PartialProduct(q, g, k, 15) != Coef(q, k - 15));
  }

  // ---------------------------------------------------------------- the register divides

  // x^16 * message + x^|message| * register: what is left to divide.
  function Dividend(r: Bits, w: Bits): (d: Bits)
    requires |r| == 16
    ensures |d| == |w| + 16
  {
    Xor(w + Zeros(16), r + Zeros(|w|))
  }

  function Quotient(r: Bits, w: Bits): (q: Bits)
    requires |r| == 16
    ensures |q| == |w|
    decreases |w|
  {
    if w == [] then [] else [r[0] != w[0]] + Quotient(Step(r, w[0]), w[1..])
  }

  lemma DividendStep(r: Bits, w: Bits, k: nat)
    requires |r| == 16 && w != []
    ensures var t := r[0] != w[0];
            var n := |w|;
            Coef(Dividend(r, w), k) ==
            (Coef(Dividend(Step(r, w[0]), w[1..]), k)
             != (t && (k == n + 15 || k == n + 14 || k == n + 1 || k == n - 1)))
  {
    var n := |w|;
    if k < n + 16 {
      var i := n + 15 - k;
      assert Coef(Dividend(r, w), k) == ((w + Zeros(16))[i] != (r + Zeros(n))[i]);
      if i > 0 {
        var r' := Step(r, w[0]);
        assert Coef(Dividend(r', w[1..]), k) == ((w[1..] + Zeros(16))[i - 1] != (r' + Zeros(n - 1))[i - 1]);
        assert (w[1..] + Zeros(16))[i - 1] == (w + Zeros(16))[i];
        if i - 1 < 16 {
          assert (r' + Zeros(n - 1))[i - 1] == r'[i - 1];
        }
      }
    }
  }

  lemma {:induction false} DivisionAt(r: Bits, w: Bits, k: nat)
    requires |r| == 16
    ensures Coef(Dividend(r, w), k) == (Taps(Quotient(r, w), k) != Coef(Feed(r, w), k))
    decreases |w|
  {
    if w == [] {
      assert Dividend(r, w) == r;
    } else {
      DivisionAt(Step(r, w[0]), w[1..], k);
      DividendStep(r, w, k);
      var q, q' := Quotient(r, w), Quotient(Step(r, w[0]), w[1..]);
      var t := r[0] != w[0];
      forall j: int ensures Coef(q, j) == (Coef(q', j) != (t && j == |w| - 1)) {
      }
    }
  }

  // Dividing by the generator leaves only one possible remainder.
  lemma {:induction false} QuotientsAgree(d: Bits, q1: Bits, r1: Bits, q2: Bits, r2: Bits, k: int, above: nat)
    requires |r1| == |r2| == 16
    requires Division(d, GENERATOR, q1, r1) && Division(d, GENERATOR, q2, r2)
    requires |q1| <= above && |q2| <= above
    ensures Coef(q1, k) == Coef(q2, k)
    decreases above - k
  {
    if 0 <= k < above {
      QuotientsAgree(d, q1, r1, q2, r2, k + 1, above);
      QuotientsAgree(d, q1, r1, q2, r2, k + 14, above);
      QuotientsAgree(d, q1, r1, q2, r2, k + 16, above);
      ProductByGenerator(q1, k + 16);
      ProductByGenerator(q2, k + 16);
      assert Coef(d, k + 16) == (ProductCoef(q1, GENERATOR, k + 16) != Coef(r1, k + 16));
    }
  }

  lemma RemainderUnique(d: Bits, q1: Bits, r1: Bits, q2: Bits, r2: Bits)
    requires |r1| == |r2| == 16
    requires Division(d, GENERATOR, q1, r1) && Division(d, GENERATOR, q2, r2)
    ensures r1 == r2
  {
    forall i | 0 <= i < 16 ensures r1[i] == r2[i] {
      var k := 15 - i;
      var above := |q1| + |q2|;
      QuotientsAgree(d, q1, r1, q2, r2, k, above);
      QuotientsAgree(d, q1, r1, q2, r2, k - 2, above);
      QuotientsAgree(d, q1, r1, q2, r2, k - 15, above);
      QuotientsAgree(d, q1, r1, q2, r2, k - 16, above);
      ProductByGenerator(q1, k);
      ProductByGenerator(q2, k);
      assert Coef(d, k) == (ProductCoef(q1, GENERATOR, k) != Coef(r1, k));
    }
  }

  // The loop of crc16_modbus computes the remainder, and nothing else is a remainder.
  lemma CrcIsRemainder(bytes: seq<bv8>, r: Bits)
    requires |r| == 16
    ensures (exists q :: Division(Dividend(Ones(16), FrameBits(bytes)), GENERATOR, q, r))
            <==> r == RegBits(Crc16(bytes))
  {
    var w := FrameBits(bytes);
    var d, q, c := Dividend(Ones(16), w), Quotient(Ones(16), w), RegBits(Crc16(bytes));
    CrcIsFeed(bytes);
    forall k: nat ensures Coef(d, k) == (ProductCoef(q, GENERATOR, k) != Coef(c, k)) {
      DivisionAt(Ones(16), w, k);
      ProductByGenerator(q, k);
    }
    assert Division(d, GENERATOR, q, c);
    if q' :| Division(d, GENERATOR, q', r) {
      RemainderUnique(d, q, c, q', r);
    }
  }

  // ---------------------------------------------------------------- what the register misses

  lemma StepLinear(r1: Bits, r2: Bits, b1: bool, b2: bool)
    requires |r1| == |r2| == 16
    ensures Step(Xor(r1, r2), b1 != b2) == Xor(Step(r1, b1), Step(r2, b2))
  {
    var s, x := Step(Xor(r1, r2), b1 != b2), Xor(Step(r1, b1), Step(r2, b2));
    forall i | 0 <= i < 16 ensures s[i] == x[i] {
    }
  }

  lemma {:induction false} FeedLinear(r1: Bits, r2: Bits, w1: Bits, w2: Bits)
    requires |r1| == |r2| == 16 && |w1| == |w2|
    ensures Feed(Xor(r1, r2), Xor(w1, w2)) == Xor(Feed(r1, w1), Feed(r2, w2))
    decreases |w1|
  {
    if w1 != [] {
      StepLinear(r1, r2, w1[0], w2[0]);
      assert Xor(w1, w2)[1..] == Xor(w1[1..], w2[1..]);
      FeedLinear(Step(r1, w1[0]), Step(r2, w2[0]), w1[1..], w2[1..]);
    }
  }

  lemma StepBack(r: Bits, b: bool, w: Bits)
    requires |r| == 16 && |w| < 16
    ensures Step(r, b) == w + Zeros(16 - |w|) <==> r == [b] + w + Zeros(15 - |w|)
  {
    var s, x, y := Step(r, b), w + Zeros(16 - |w|), [b] + w + Zeros(15 - |w|);
    assert forall i | 0 <= i < 15 :: x[i] == y[i + 1];
    assert !x[15] && y[0] == b;
    if s == x {
      assert !s[15];
      forall i | 0 <= i < 16 ensures r[i] == y[i] {
        if i > 0 {
          assert s[i - 1] == r[i];
        }
      }
    }
    if r == y {
      forall i | 0 <= i < 16 ensures s[i] == x[i] {
      }
    }
  }

  // A register is emptied by at most sixteen bits exactly when it already holds them.
  lemma {:induction false} EmptiedBy(r: Bits, w: Bits)
    requires |r| == 16 && |w| <= 16
    ensures Feed(r, w) == Zeros(16) <==> r == w + Zeros(16 - |w|)
    decreases |w|
  {
    if w == [] {
      assert w + Zeros(16) == Zeros(16);
    } else {
      EmptiedBy(Step(r, w[0]), w[1..]);
      StepBack(r, w[0], w[1..]);
      assert [w[0]] + w[1..] + Zeros(15 - (|w| - 1)) == w + Zeros(16 - |w|);
    }
  }

  lemma {:induction false} EmptiedByZeros(r: Bits, n: nat)
    requires |r| == 16
    ensures Feed(r, Zeros(n)) == Zeros(16) <==> r == Zeros(16)
    decreases n
  {
    if n > 0 {
      assert Zeros(n)[1..] == Zeros(n - 1);
      EmptiedByZeros(Step(r, false), n - 1);
      EmptiedBy(r, [false]);
      assert Feed(r, [false]) == Step(r, false);
      assert [false] + Zeros(15) == Zeros(16);
    }
  }

  ghost predicate InWindow(e: Bits, start: nat, width: nat) {
    forall i | 0 <= i < |e| && e[i] :: start <= i < start + width
  }

  // An error burst of at most 16 bits, at any place in a message of any length, leaves a trace.
  lemma BurstLeavesTrace(e: Bits, start: nat)
    requires InWindow(e, start, 16)
    requires Feed(Zeros(16), e) == Zeros(16)
    ensures e == Zeros(|e|)
  {
    var a := if start < |e| then start else |e|;
    var b := if start + 16 < |e| then start + 16 else |e|;
    SplitWindow(e, a, b);
    BurstBetweenZeros(a, e[a..b], |e| - b);
    forall i | 0 <= i < |e| ensures !e[i] {
      if a <= i < b {
        assert e[i] == e[a..b][i - a];
      }
    }
  }

  lemma SplitWindow(e: Bits, a: nat, b: nat)
    requires a <= b <= |e|
    requires forall i | 0 <= i < |e| && e[i] :: a <= i < b
    ensures e == Zeros(a) + (e[a..b] + Zeros(|e| - b))
  {
    var x := Zeros(a) + (e[a..b] + Zeros(|e| - b));
    forall i | 0 <= i < |e| ensures e[i] == x[i] {
    }
  }

  lemma BurstBetweenZeros(a: nat, m: Bits, c: nat)
    requires |m| <= 16
    requires Feed(Zeros(16), Zeros(a) + (m + Zeros(c))) == Zeros(16)
    ensures m == Zeros(|m|)
  {
    FeedConcat(Zeros(16), Zeros(a), m + Zeros(c));
    EmptiedByZeros(Zeros(16), a);
    FeedConcat(Zeros(16), m, Zeros(c));
    EmptiedByZeros(Feed(Zeros(16), m), c);
    EmptiedBy(Zeros(16), m);
    assert forall i | 0 <= i < |m| :: m[i] == (m + Zeros(16 - |m|))[i];
  }

  // ---------------------------------------------------------------- parity

  function Weight(w: Bits): nat
  {
    if w == [] then 0 else (if w[0] then 1 else 0) + Weight(w[1..])
  }

  function Odd(w: Bits): bool {
    if w == [] then false else w[0] != Odd(w[1..])
  }

  lemma {:induction false} OddIsWeight(w: Bits)
    ensures Odd(w) <==> Weight(w) % 2 == 1
  {
    if w != [] {
      OddIsWeight(w[1..]);
    }
  }

  lemma {:induction false} OddConcat(a: Bits, b: Bits)
    ensures Odd(a + b) == (Odd(a) != Odd(b))
  {
    if a == [] {
      assert a + b == b;
    } else {
      assert (a + b)[0] == a[0] && (a + b)[1..] == a[1..] + b;
      OddConcat(a[1..], b);
    }
  }

  lemma {:induction false} OddXor(a: Bits, b: Bits)
    requires |a| == |b|
    ensures Odd(Xor(a, b)) == (Odd(a) != Odd(b))
  {
    if a != [] {
      assert Xor(a, b)[1..] == Xor(a[1..], b[1..]);
      OddXor(a[1..], b[1..]);
    }
  }

  lemma {:induction false} OddZeros(n: nat)
    ensures !Odd(Zeros(n))
  {
    if n > 0 {
      assert Zeros(n)[1..] == Zeros(n - 1);
      OddZeros(n - 1);
    }
  }

  lemma {:induction false} OddOnes(n: nat)
    ensures Odd(Ones(n)) <==> n % 2 == 1
  {
    if n > 0 {
      assert Ones(n)[1..] == Ones(n - 1);
      OddOnes(n - 1);
    }
  }

  // The generator has an even number of terms, so a shift moves the fed bit's parity
  // into the register and loses none.
  lemma StepParity(r: Bits, b: bool)
    requires |r| == 16
    ensures Odd(Step(r, b)) == (Odd(r) != b)
  {
    var t := r[0] != b;
    var taps := [t] + Zeros(12) + [t, false, t];
    assert Step(r, b) == Xor(r[1..] + [false], taps);
    OddConcat(r[1..], [false]);
    OddXor(r[1..] + [false], taps);
    OddTaps(t);
  }

  lemma OddTaps(t: bool)
    ensures Odd([t] + Zeros(12) + [t, false, t]) == t
  {
    assert [t, false, t][1..] == [false, t] && [false, t][1..] == [t];
    OddConcat([t] + Zeros(12), [t, false, t]);
    OddConcat([t], Zeros(12));
    OddZeros(12);
  }

  lemma {:induction false} FeedParity(r: Bits, w: Bits)
    requires |r| == 16
    ensures Odd(Feed(r, w)) == (Odd(r) != Odd(w))
    decreases |w|
  {
    if w != [] {
      FeedParity(Step(r, w[0]), w[1..]);
      StepParity(r, w[0]);
    }
  }

  // ---------------------------------------------------------------- frames

  function LowByte(c: bv16): bv8 { (c & 0xFF) as bv8 }
  function HighByte(c: bv16): bv8 { (c >> 8) as bv8 }

  // The frame carries its own CRC, low byte first.
  predicate ValidFrame(f: seq<bv8>) {
    && |f| >= 2
    && var c := Crc16(f[..|f| - 2]);
    && f[|f| - 2] == LowByte(c)
    && f[|f| - 1] == HighByte(c)
  }

  lemma LowByteBits(c: bv16)
    ensures ByteBits(LowByte(c)) == RegBits(c)[..8]
  {
  }

  lemma HighByteBits(c: bv16)
    ensures ByteBits(HighByte(c)) == RegBits(c)[8..]
  {
  }

  lemma ByteBitsInjective(a: bv8, b: bv8)
    requires ByteBits(a) == ByteBits(b)
    ensures a == b
  {
    var x, y := ByteBits(a), ByteBits(b);
    assert x[0] == y[0] && x[1] == y[1] && x[2] == y[2] && x[3] == y[3];
    assert x[4] == y[4] && x[5] == y[5] && x[6] == y[6] && x[7] == y[7];
  }

  lemma ByteBitsIff(a: bv8, b: bv8)
    ensures ByteBits(a) == ByteBits(b) <==> a == b
  {
    if ByteBits(a) == ByteBits(b) {
      ByteBitsInjective(a, b);
    }
  }

  lemma RegBitsZero(c: bv16)
    ensures RegBits(c) == Zeros(16) <==> c == 0
  {
    var x := RegBits(c);
    if x == Zeros(16) {
      assert !x[0] && !x[1] && !x[2] && !x[3] && !x[4] && !x[5] && !x[6] && !x[7];
      assert !x[8] && !x[9] && !x[10] && !x[11] && !x[12] && !x[13] && !x[14] && !x[15];
    }
  }

  lemma {:induction false} FrameBitsInjective(a: seq<bv8>, b: seq<bv8>)
    requires |a| == |b| && FrameBits(a) == FrameBits(b)
    ensures a == b
  {
    if a != [] {
      var n := |a| - 1;
      var pa, pb := FrameBits(a[..n]), FrameBits(b[..n]);
      assert FrameBits(a) == pa + ByteBits(a[n]) && FrameBits(b) == pb + ByteBits(b[n]);
      assert pa == FrameBits(a)[..8 * n] && pb == FrameBits(b)[..8 * n];
      assert ByteBits(a[n]) == FrameBits(a)[8 * n..] && ByteBits(b[n]) == FrameBits(b)[8 * n..];
      FrameBitsInjective(a[..n], b[..n]);
      ByteBitsInjective(a[n], b[n]);
      assert a == a[..n] + [a[n]] && b == b[..n] + [b[n]];
    }
  }

  // A frame is valid exactly when the register ends at zero over all of it, CRC included.
  lemma ResidueZero(f: seq<bv8>)
    requires |f| >= 2
    ensures ValidFrame(f) <==> Crc16(f) == 0
    ensures ValidFrame(f) <==> Feed(Ones(16), FrameBits(f)) == Zeros(16)
  {
    FrameFeed(f);
    TrailerEmpties(Crc16(f[..|f| - 2]), f[|f| - 2], f[|f| - 1]);
    CrcIsFeed(f);
    RegBitsZero(Crc16(f));
  }

  lemma FrameFeed(f: seq<bv8>)
    requires |f| >= 2
    ensures Feed(Ones(16), FrameBits(f)) ==
            Feed(RegBits(Crc16(f[..|f| - 2])), ByteBits(f[|f| - 2]) + ByteBits(f[|f| - 1]))
  {
    FrameBitsTrailer(f);
    FeedAfter(f[..|f| - 2], FrameBits(f), ByteBits(f[|f| - 2]) + ByteBits(f[|f| - 1]));
  }

  lemma FrameBitsTrailer(f: seq<bv8>)
    requires |f| >= 2
    ensures FrameBits(f) == FrameBits(f[..|f| - 2]) + (ByteBits(f[|f| - 2]) + ByteBits(f[|f| - 1]))
  {
    var p := f[..|f| - 1];
    assert p[..|p| - 1] == f[..|f| - 2];
    Associate(FrameBits(f[..|f| - 2]), ByteBits(f[|f| - 2]), ByteBits(f[|f| - 1]));
  }

  lemma Associate(a: Bits, b: Bits, c: Bits)
    ensures (a + b) + c == a + (b + c)
  {
  }

  lemma FeedAfter(m: seq<bv8>, w: Bits, t: Bits)
    requires w == FrameBits(m) + t
    ensures Feed(Ones(16), w) == Feed(RegBits(Crc16(m)), t)
  {
    CrcIsFeed(m);
    FeedConcat(Ones(16), FrameBits(m), t);
  }

  lemma TrailerEmpties(crc: bv16, lo: bv8, hi: bv8)
    ensures Feed(RegBits(crc), ByteBits(lo) + ByteBits(hi)) == Zeros(16)
            <==> lo == LowByte(crc) && hi == HighByte(crc)
  {
    hide RegBits, ByteBits, Feed, LowByte, HighByte;
    var c, t := RegBits(crc), ByteBits(lo) + ByteBits(hi);
    EmptiedBy(c, t);
    assert t + Zeros(0) == t;
    LowByteBits(crc);
    HighByteBits(crc);
    HalvesAgree(c, ByteBits(lo), ByteBits(hi));
    ByteBitsIff(lo, LowByte(crc));
    ByteBitsIff(hi, HighByte(crc));
  }

  lemma HalvesAgree(c: Bits, lo: Bits, hi: Bits)
    requires |c| == 16 && |lo| == |hi| == 8
    ensures c == lo + hi <==> lo == c[..8] && hi == c[8..]
  {
    if c == lo + hi {
      assert (lo + hi)[..8] == lo && (lo + hi)[8..] == hi;
    }
    assert c == c[..8] + c[8..];
  }

  // Appending the CRC always makes the number of set bits in the frame even.
  lemma ValidFrameIsEven(f: seq<bv8>)
    requires ValidFrame(f)
    ensures Weight(FrameBits(f)) % 2 == 0
  {
    ResidueZero(f);
    FeedParity(Ones(16), FrameBits(f));
    OddZeros(16);
    OddOnes(16);
    OddIsWeight(FrameBits(f));
  }

  // The bits in which two frames of the same length differ.
  function Flips(f: seq<bv8>, f': seq<bv8>): (e: Bits)
    requires |f| == |f'|
    ensures |e| == 8 * |f|
  {
    Xor(FrameBits(f), FrameBits(f'))
  }

  // No nonempty set of flips within 16 consecutive transmitted bits keeps a frame valid.
  lemma BurstDetected(f: seq<bv8>, f': seq<bv8>, start: nat)
    requires |f| == |f'| && f != f' && ValidFrame(f)
    requires InWindow(Flips(f, f'), start, 16)
    ensures !ValidFrame(f')
  {
    if ValidFrame(f') {
      var e := Flips(f, f');
      ResidueZero(f);
      ResidueZero(f');
      FeedLinear(Ones(16), Ones(16), FrameBits(f), FrameBits(f'));
      assert Xor(Ones(16), Ones(16)) == Zeros(16) && Xor(Zeros(16), Zeros(16)) == Zeros(16);
      BurstLeavesTrace(e, start);
      assert forall i | 0 <= i < |e| :: e[i] == (FrameBits(f)[i] != FrameBits(f')[i]);
      assert FrameBits(f) == FrameBits(f');
      FrameBitsInjective(f, f');
    }
  }

  // No odd number of flips, anywhere in a frame of any length, keeps a frame valid.
  lemma OddFlipsDetected(f: seq<bv8>, f': seq<bv8>)
    requires |f| == |f'| && ValidFrame(f)
    requires Weight(Flips(f, f')) % 2 == 1
    ensures !ValidFrame(f')
  {
    if ValidFrame(f') {
      ValidFrameIsEven(f);
      ValidFrameIsEven(f');
      OddIsWeight(FrameBits(f));
      OddIsWeight(FrameBits(f'));
      OddXor(FrameBits(f), FrameBits(f'));
      OddIsWeight(Flips(f, f'));
    }
  }
}
