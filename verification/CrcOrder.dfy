/**
 How far apart two flipped bits must be to escape the CRC: the powers of x modulo the generator
 return to 1 exactly every 32767 steps.
 */
module CrcOrder {
  import opened Crc
  import opened CrcAlgebra

  // ---------------------------------------------------------------- powers of x

  // The polynomial 1, in the register's bit order.
  const UNIT: bv16 := 0x8000

  // x^n modulo the generator.
  function Power(n: nat): bv16 {
    Shifts(UNIT, n)
  }

  lemma {:induction false} ShiftsAdd(c: bv16, m: nat, n: nat)
    ensures Shifts(c, m + n) == Shifts(Shifts(c, m), n)
  {
    if n > 0 {
      ShiftsAdd(c, m, n - 1);
    }
  }

  // Addition of polynomials, the coefficient of x^15, and what is left without it.
  function Plus(a: bv16, b: bv16): bv16 {
    a ^ b
  }

  predicate Low(t: bv16) {
    t & 1 != 0
  }

  function Half(t: bv16): bv16 {
    t >> 1
  }

  lemma PlusCommutes(a: bv16, b: bv16)
    ensures Plus(a, b) == Plus(b, a)
  {
  }

  lemma PlusAssociates(a: bv16, b: bv16, c: bv16)
    ensures Plus(Plus(a, b), c) == Plus(a, Plus(b, c))
  {
  }

  lemma PlusPairs(a: bv16, b: bv16, c: bv16, d: bv16)
    ensures Plus(Plus(a, b), Plus(c, d)) == Plus(Plus(a, c), Plus(b, d))
  {
    hide Plus;
    PlusAssociates(a, b, Plus(c, d));
    PlusAssociates(b, c, d);
    PlusCommutes(b, c);
    PlusAssociates(c, b, d);
    PlusAssociates(a, c, Plus(b, d));
  }

  const TAPS: bv16 := 0xA001

  lemma ShiftIs(a: bv16)
    ensures Shift(a) == Plus(Half(a), Coefficient(a, TAPS))
  {
  }

  lemma ShiftPlus(a: bv16, b: bv16)
    ensures Shift(Plus(a, b)) == Plus(Shift(a), Shift(b))
  {
    hide Plus, Half, Low, Shift;
    ShiftIs(a);
    ShiftIs(b);
    ShiftIs(Plus(a, b));
    HalfPlus(a, b);
    PlusFacts(TAPS);
    PlusFacts(0);
    PlusPairs(Half(a), Half(b), Coefficient(a, TAPS), Coefficient(b, TAPS));
    assert Coefficient(Plus(a, b), TAPS) == Plus(Coefficient(a, TAPS), Coefficient(b, TAPS));
  }

  lemma PlusFacts(p: bv16)
    ensures Plus(p, 0) == p == Plus(0, p) && Plus(p, p) == 0 && Shift(0) == 0
  {
  }

  lemma HalfPlus(a: bv16, b: bv16)
    ensures Half(Plus(a, b)) == Plus(Half(a), Half(b)) && Low(Plus(a, b)) == (Low(a) != Low(b))
  {
    ShiftRightXor(a, b);
    LowBitXor(a, b);
  }

  lemma HalfZero()
    ensures Half(0) == 0 && !Low(0)
  {
  }

  // ---------------------------------------------------------------- squares

  function Coefficient(t: bv16, p: bv16): bv16 {
    if Low(t) then p else 0
  }

  // The part of the coefficients t of x^(15-k) and below, each x^j replaced by x^(2j+s). The
  // coefficient of the highest of them is the lowest bit of t.
  function Spread(t: bv16, k: nat, s: nat): bv16
    requires k <= 16
    decreases 16 - k
  {
    if k == 16 then 0 else Plus(Coefficient(t, Power(30 - 2 * k + s)), Spread(Half(t), k + 1, s))
  }

  // Squaring is linear over GF(2).
  function Square(t: bv16): bv16 {
    Spread(t, 0, 0)
  }

  lemma PowerNext(n: nat)
    ensures Power(n + 1) == Shift(Power(n))
  {
  }

  lemma {:induction false} SpreadShift(t: bv16, k: nat, s: nat)
    requires k <= 16
    ensures Shift(Spread(t, k, s)) == Spread(t, k, s + 1)
    decreases 16 - k
  {
    hide Plus, Low, Half, Shift, Power;
    PlusFacts(0);
    if k < 16 {
      SpreadShift(Half(t), k + 1, s);
      var p := Power(30 - 2 * k + s);
      ShiftPlus(Coefficient(t, p), Spread(Half(t), k + 1, s));
      PowerNext(30 - 2 * k + s);
    }
  }

  lemma {:induction false} SpreadPlus(a: bv16, b: bv16, k: nat, s: nat)
    requires k <= 16
    ensures Spread(Plus(a, b), k, s) == Plus(Spread(a, k, s), Spread(b, k, s))
    decreases 16 - k
  {
    hide Plus, Low, Half, Power;
    PlusFacts(0);
    if k < 16 {
      var p := Power(30 - 2 * k + s);
      SpreadPlus(Half(a), Half(b), k + 1, s);
      HalfPlus(a, b);
      PlusFacts(p);
      PlusPairs(Coefficient(a, p), Coefficient(b, p), Spread(Half(a), k + 1, s), Spread(Half(b), k + 1, s));
      assert Coefficient(Plus(a, b), p) == Plus(Coefficient(a, p), Coefficient(b, p));
    }
  }

  // No bit of t is left after n right shifts.
  predicate Small(t: bv16, n: nat) {
    if n == 0 then t == 0 else Small(Half(t), n - 1)
  }

  lemma SpreadStep(t: bv16, k: nat, s: nat)
    requires k < 16
    ensures Spread(t, k, s) == Plus(Coefficient(t, Power(30 - 2 * k + s)), Spread(Half(t), k + 1, s))
  {
  }

  lemma SpreadEnd(t: bv16, s: nat)
    ensures Spread(t, 16, s) == 0
  {
  }

  lemma {:induction false} SpreadLower(t: bv16, k: nat, s: nat)
    requires k < 16 && Small(t, 15 - k)
    ensures Spread(t, k + 1, s + 2) == Spread(t, k, s)
    decreases 16 - k
  {
    hide Plus, Low, Half, Power, Spread;
    SpreadStep(t, k, s);
    if k < 15 {
      SpreadStep(t, k + 1, s + 2);
      SpreadLower(Half(t), k + 1, s);
      assert 30 - 2 * (k + 1) + (s + 2) == 30 - 2 * k + s;
    } else {
      HalfZero();
      PlusFacts(0);
      SpreadEnd(Half(t), s);
      SpreadEnd(t, s + 2);
    }
  }

  lemma SmallHalf(t: bv16)
    ensures Small(Half(t), 15)
  {
    assert t >> 1 >> 1 >> 1 >> 1 >> 1 >> 1 >> 1 >> 1 >> 1 >> 1 >> 1 >> 1 >> 1 >> 1 >> 1 >> 1 == 0;
    var h := Half(t);
    var a := Half(Half(Half(Half(Half(h)))));
    var b := Half(Half(Half(Half(Half(a)))));
    assert Small(Half(Half(Half(Half(Half(b))))), 0);
    SmallFive(b, 0);
    SmallFive(a, 5);
    SmallFive(h, 10);
  }

  lemma SmallFive(t: bv16, n: nat)
    requires Small(Half(Half(Half(Half(Half(t))))), n)
    ensures Small(t, n + 5)
  {
    hide Half;
    assert Small(Half(Half(Half(Half(t)))), n + 1);
    assert Small(Half(Half(Half(t))), n + 2);
    assert Small(Half(Half(t)), n + 3);
    assert Small(Half(t), n + 4);
  }

  // ---------------------------------------------------------------- evaluating squares

  lemma SmallPowers()
    ensures Power(0) == 0x8000 && Power(2) == 0x2000
    ensures Power(4) == 0x0800 && Power(6) == 0x0200
    ensures Power(8) == 0x0080 && Power(10) == 0x0020
    ensures Power(12) == 0x0008 && Power(14) == 0x0002
    ensures Power(16) == 0xA001 && Power(18) == 0xD801
    ensures Power(20) == 0xC601 && Power(22) == 0xC181
    ensures Power(24) == 0xC061 && Power(26) == 0xC019
    ensures Power(28) == 0xC007 && Power(30) == 0x6001
    ensures Power(32) == 0xE801
  {
    hide Power;
    assert Power(0) == UNIT by { PowerZero(); }
    PowerStep(0, 0x8000);
    PowerStep(1, 0x4000);
    PowerStep(2, 0x2000);
    PowerStep(3, 0x1000);
    PowerStep(4, 0x0800);
    PowerStep(5, 0x0400);
    PowerStep(6, 0x0200);
    PowerStep(7, 0x0100);
    PowerStep(8, 0x0080);
    PowerStep(9, 0x0040);
    PowerStep(10, 0x0020);
    PowerStep(11, 0x0010);
    PowerStep(12, 0x0008);
    PowerStep(13, 0x0004);
    PowerStep(14, 0x0002);
    PowerStep(15, 0x0001);
    PowerStep(16, 0xA001);
    PowerStep(17, 0xF001);
    PowerStep(18, 0xD801);
    PowerStep(19, 0xCC01);
    PowerStep(20, 0xC601);
    PowerStep(21, 0xC301);
    PowerStep(22, 0xC181);
    PowerStep(23, 0xC0C1);
    PowerStep(24, 0xC061);
    PowerStep(25, 0xC031);
    PowerStep(26, 0xC019);
    PowerStep(27, 0xC00D);
    PowerStep(28, 0xC007);
    PowerStep(29, 0xC002);
    PowerStep(30, 0x6001);
    PowerStep(31, 0x9001);
  }

  lemma PowerZero()
    ensures Power(0) == UNIT
  {
  }

  lemma PowerStep(n: nat, v: bv16)
    requires Power(n) == v
    ensures Power(n + 1) == Shift(v)
  {
  }

  // Spread written out over the values of x^30, x^28, ..., x^0.
  function Table(t: bv16): bv16 {
    TableTop(t, TableBottom(Half8(t)))
  }

  function Half8(t: bv16): bv16 {
    Half(Half(Half(Half(Half(Half(Half(Half(t))))))))
  }

  function TableTop(t: bv16, rest: bv16): bv16 {
    var t1 := Half(t);
    var t2 := Half(t1);
    var t3 := Half(t2);
    var t4 := Half(t3);
    var t5 := Half(t4);
    var t6 := Half(t5);
    var t7 := Half(t6);
    Plus(Coefficient(t, 0x6001), Plus(Coefficient(t1, 0xC007), Plus(Coefficient(t2, 0xC019),
    Plus(Coefficient(t3, 0xC061), Plus(Coefficient(t4, 0xC181), Plus(Coefficient(t5, 0xC601),
    Plus(Coefficient(t6, 0xD801), Plus(Coefficient(t7, 0xA001), rest))))))))
  }

  function TableBottom(t: bv16): bv16 {
    var t1 := Half(t);
    var t2 := Half(t1);
    var t3 := Half(t2);
    var t4 := Half(t3);
    var t5 := Half(t4);
    var t6 := Half(t5);
    var t7 := Half(t6);
    Plus(Coefficient(t, 0x0002), Plus(Coefficient(t1, 0x0008), Plus(Coefficient(t2, 0x0020),
    Plus(Coefficient(t3, 0x0080), Plus(Coefficient(t4, 0x0200), Plus(Coefficient(t5, 0x0800),
    Plus(Coefficient(t6, 0x2000), Plus(Coefficient(t7, 0x8000), 0))))))))
  }

  lemma SquareIsTable(t: bv16)
    ensures Square(t) == Table(t)
  {
    SmallPowers();
    hide Plus, Low, Half, Power, Coefficient;
    SpreadEight(t, 0);
    SpreadEight(Half8(t), 8);
  }

  // Eight coefficients at a time.
  lemma SpreadEight(t: bv16, k: nat)
    requires k <= 8
    ensures var t1 := Half(t); var t2 := Half(t1); var t3 := Half(t2); var t4 := Half(t3);
            var t5 := Half(t4); var t6 := Half(t5); var t7 := Half(t6);
            Spread(t, k, 0) ==
            Plus(Coefficient(t, Power(30 - 2 * k)), Plus(Coefficient(t1, Power(28 - 2 * k)),
            Plus(Coefficient(t2, Power(26 - 2 * k)), Plus(Coefficient(t3, Power(24 - 2 * k)),
            Plus(Coefficient(t4, Power(22 - 2 * k)), Plus(Coefficient(t5, Power(20 - 2 * k)),
            Plus(Coefficient(t6, Power(18 - 2 * k)), Plus(Coefficient(t7, Power(16 - 2 * k)),
            Spread(Half(t7), k + 8, 0)))))))))
  {
    hide Plus, Low, Half, Power, Coefficient, Spread;
    SpreadStep(t, k, 0);
    var t1 := Half(t);
    SpreadStep(t1, k + 1, 0);
    var t2 := Half(t1);
    SpreadStep(t2, k + 2, 0);
    var t3 := Half(t2);
    SpreadStep(t3, k + 3, 0);
    var t4 := Half(t3);
    SpreadStep(t4, k + 4, 0);
    var t5 := Half(t4);
    SpreadStep(t5, k + 5, 0);
    var t6 := Half(t5);
    SpreadStep(t6, k + 6, 0);
    SpreadStep(Half(t6), k + 7, 0);
  }

  lemma SquareCoefficient(t: bv16)
    ensures Square(Coefficient(t, TAPS)) == Coefficient(t, Power(32))
  {
    SquareTaps();
    hide Square, Power, Low;
  }

  lemma SquareStep(t: bv16)
    ensures Shift(Shift(Square(t))) == Plus(Coefficient(t, Power(32)), Square(Half(t)))
  {
    hide Plus, Low, Half, Shift, Power, Coefficient, Spread;
    SpreadShift(t, 0, 0);
    SpreadShift(t, 0, 1);
    SmallHalf(t);
    SpreadLower(Half(t), 0, 0);
    SpreadStep(t, 0, 2);
  }

  // (x * t)^2 = x^2 * t^2
  lemma SquareShift(t: bv16)
    ensures Square(Shift(t)) == Shift(Shift(Square(t)))
  {
    hide Plus, Low, Half, Shift, Power, Coefficient, Spread;
    SquareStep(t);
    ShiftIs(t);
    SpreadPlus(Half(t), Coefficient(t, TAPS), 0, 0);
    SquareCoefficient(t);
    PlusCommutes(Square(Half(t)), Coefficient(t, Power(32)));
  }

  lemma SquareTaps()
    ensures Square(TAPS) == Power(32) && Square(0) == 0
  {
    SmallPowers();
    SquareIsTable(TAPS);
    SquareIsTable(0);
    hide Square, Power;
  }

  lemma {:induction false} PowerDoubles(n: nat)
    ensures Power(2 * n) == Square(Power(n))
  {
    hide Square, Shift, Power;
    if n == 0 {
      PowerZero();
      SquareUnit();
    } else {
      PowerDoubles(n - 1);
      SquareShift(Power(n - 1));
      PowerNext(n - 1);
      PowerNext(2 * n - 2);
      PowerNext(2 * n - 1);
    }
  }

  lemma SquareUnit()
    ensures Square(UNIT) == UNIT
  {
    SquareIsTable(UNIT);
    hide Square;
  }

  // Square-and-multiply, one bit of the exponent at a time.
  lemma Even(n: nat, v: bv16, w: bv16)
    requires Power(n) == v && w == Table(v)
    ensures Power(2 * n) == w
  {
    PowerDoubles(n);
    SquareIsTable(v);
    hide Power, Square, Table;
  }

  lemma Odd(n: nat, v: bv16, w: bv16)
    requires Power(n) == v && w == Shift(Table(v))
    ensures Power(2 * n + 1) == w
  {
    Even(n, v, Table(v));
    PowerNext(2 * n);
    hide Power, Square, Table;
  }

  lemma PowerOne()
    ensures Power(1) == 0x4000
  {
    PowerZero();
    PowerStep(0, UNIT);
    hide Power;
  }

  lemma FullCycle()
    ensures Power(32767) == 0x8000
  {
    hide Power, Square;
    PowerOne();
    Odd(1, 0x4000, 0x1000);
    Odd(3, 0x1000, 0x0100);
    Odd(7, 0x0100, 0x0001);
    Odd(15, 0x0001, 0x9001);
    Odd(31, 0x9001, 0xD101);
    Odd(63, 0xD101, 0xC100);
    Odd(127, 0xC100, 0x5001);
    Odd(255, 0x5001, 0x8101);
    Odd(511, 0x8101, 0xD000);
    Odd(1023, 0xD000, 0x5100);
    Odd(2047, 0x5100, 0x1101);
    Odd(4095, 0x1101, 0x9100);
    Odd(8191, 0x9100, 0x4101);
    Odd(16383, 0x4101, 0x8000);
  }

  lemma Power217()
    ensures Power(217) == 0x3E55
  {
    hide Power, Square;
    PowerOne();
    Odd(1, 0x4000, 0x1000);
    Even(3, 0x1000, 0x0200);
    Odd(6, 0x0200, 0x0004);
    Odd(13, 0x0004, 0xC00D);
    Even(27, 0xC00D, 0xC079);
    Even(54, 0xC079, 0xDFE1);
    Odd(108, 0xDFE1, 0x3E55);
  }

  lemma Power1057()
    ensures Power(1057) == 0xCE41
  {
    hide Power, Square;
    PowerOne();
    Even(1, 0x4000, 0x2000);
    Even(2, 0x2000, 0x0800);
    Even(4, 0x0800, 0x0080);
    Even(8, 0x0080, 0xA001);
    Odd(16, 0xA001, 0xD401);
    Even(33, 0xD401, 0xC221);
    Even(66, 0xC221, 0x0608);
    Even(132, 0x0608, 0xC049);
    Even(264, 0xC049, 0xD861);
    Odd(528, 0xD861, 0xCE41);
  }

  lemma Power4681()
    ensures Power(4681) == 0x8C69
  {
    hide Power, Square;
    PowerOne();
    Even(1, 0x4000, 0x2000);
    Even(2, 0x2000, 0x0800);
    Odd(4, 0x0800, 0x0040);
    Even(9, 0x0040, 0xD801);
    Even(18, 0xD801, 0xC281);
    Odd(36, 0xC281, 0x3004);
    Even(73, 0x3004, 0xCA19);
    Even(146, 0xCA19, 0xC169);
    Odd(292, 0xC169, 0x0F31);
    Even(585, 0x0F31, 0x672B);
    Even(1170, 0x672B, 0x8E4C);
    Odd(2340, 0x8E4C, 0x8C69);
  }

  // ---------------------------------------------------------------- the order of x

  predicate Cycles(n: nat) {
    Power(n) == UNIT
  }

  lemma CycleDifference(a: nat, b: nat)
    requires b <= a && Cycles(b)
    ensures Cycles(a) <==> Cycles(a - b)
  {
    ShiftsAdd(UNIT, b, a - b);
  }

  lemma {:induction false} CycleMultiple(n: nat, k: nat)
    requires Cycles(n)
    ensures Cycles(n * k)
  {
    hide Power;
    if k == 0 {
      PowerZero();
    } else {
      CycleMultiple(n, k - 1);
      assert n * k == n * (k - 1) + n;
      CycleDifference(n * k, n);
    }
  }

  // If x^m has a and b among its cycle lengths, it has a common divisor of them.
  lemma {:induction false} CommonCycle(m: nat, a: nat, b: nat) returns (g: nat, u: nat, v: nat)
    requires a > 0 && b > 0 && Cycles(m * a) && Cycles(m * b)
    ensures a == g * u && b == g * v && Cycles(m * g)
    decreases a + b
  {
    hide Cycles;
    if a == b {
      g, u, v := a, 1, 1;
    } else if a > b {
      Subtract(m, a, b);
      g, u, v := CommonCycle(m, a - b, b);
      assert g * (u + v) == g * u + g * v;
      u := u + v;
    } else {
      Subtract(m, b, a);
      g, u, v := CommonCycle(m, a, b - a);
      assert g * (u + v) == g * u + g * v;
      v := u + v;
    }
  }

  lemma Subtract(m: nat, a: nat, b: nat)
    requires b <= a && Cycles(m * a) && Cycles(m * b)
    ensures Cycles(m * (a - b))
  {
    assert m * a == m * (a - b) + m * b;
    CycleDifference(m * a, m * b);
  }

  ghost predicate Prime(p: nat) {
    p > 1 && forall g: nat, v: nat | g * v == p :: g == 1 || g == p
  }

  // When p is the order of x^m, every cycle length is a multiple of p.
  lemma PrimeDivides(p: nat, m: nat, n: nat) returns (q: nat)
    requires Prime(p) && Cycles(m * p) && !Cycles(m) && Cycles(n)
    ensures n == p * q
  {
    if n == 0 {
      q := 0;
    } else {
      CycleMultiple(n, m);
      assert n * m == m * n;
      var g, u, v := CommonCycle(m, n, p);
      assert m * 1 == m;
      assert g == p;
      q := u;
    }
  }

  lemma AtLeast(g: nat, v: nat, a: nat, b: nat)
    ensures g >= a && v >= b ==> g * v >= a * b
  {
    if g >= a && v >= b {
      assert g * v >= a * v >= a * b;
    }
  }

  lemma SmallFactor(g: nat, v: nat, p: nat)
    requires g * v == p && g <= 12 && (p == 151 || (p == 31 && g <= 5) || (p == 7 && g <= 2))
    ensures g == 1
  {
    assert (g == 0 ==> g * v == 0) && (g == 2 ==> g * v == 2 * v) && (g == 3 ==> g * v == 3 * v);
    assert (g == 4 ==> g * v == 4 * v) && (g == 5 ==> g * v == 5 * v) && (g == 6 ==> g * v == 6 * v);
    assert (g == 7 ==> g * v == 7 * v) && (g == 8 ==> g * v == 8 * v) && (g == 9 ==> g * v == 9 * v);
    assert (g == 10 ==> g * v == 10 * v) && (g == 11 ==> g * v == 11 * v) && (g == 12 ==> g * v == 12 * v);
  }

  // A factor not above the square root, or its cofactor, is 1.
  lemma IsPrime(p: nat)
    requires p in {151, 31, 7}
    ensures Prime(p)
  {
    var root := if p == 151 then 12 else if p == 31 then 5 else 2;
    assert (root + 1) * (root + 1) > p;
    forall g: nat, v: nat | g * v == p ensures g == 1 || g == p {
      AtLeast(g, v, root + 1, root + 1);
      if g <= root {
        SmallFactor(g, v, p);
      } else {
        SmallFactor(v, g, p);
      }
    }
  }

  // 32767 = 7 * 31 * 151, and x^217, x^1057 and x^4681 are not 1: the powers of x return to 1
  // exactly at the multiples of 32767.
  lemma OrderOfX(n: nat)
    ensures Cycles(n) <==> n % 32767 == 0
  {
    FullCycle();
    Power217();
    Power1057();
    Power4681();
    hide Power;
    if Cycles(n) {
      IsPrime(151);
      IsPrime(31);
      IsPrime(7);
      var a := PrimeDivides(151, 217, n);
      var b := PrimeDivides(31, 1057, n);
      var c := PrimeDivides(7, 4681, n);
      CombineFactors(n, a, b, c);
    }
    if n % 32767 == 0 {
      var k := n / 32767;
      CycleMultiple(32767, k);
      assert n == 32767 * k;
    }
  }

  lemma CombineFactors(n: nat, a: nat, b: nat, c: nat)
    requires n == 151 * a && n == 31 * b && n == 7 * c
    ensures n % 32767 == 0
  {
    var d := 8 * (5 * a - b) - a;
    assert a == 31 * d;
    assert n == 4681 * d;
    var e := 3 * (c - 668 * d) - 2 * d;
    assert d == 7 * e;
    assert n == 32767 * e;
  }

  // ---------------------------------------------------------------- two flipped bits

  lemma {:induction false} FeedZeros(c: bv16, n: nat)
    ensures Feed(RegBits(c), Zeros(n)) == RegBits(Shifts(c, n))
  {
    if n > 0 {
      assert Zeros(n) == Zeros(n - 1) + [false];
      FeedConcat(RegBits(c), Zeros(n - 1), [false]);
      FeedZeros(c, n - 1);
      FeedOneZero(Shifts(c, n - 1));
    }
  }

  lemma FeedOneZero(c: bv16)
    ensures Feed(RegBits(c), [false]) == RegBits(Shift(c))
  {
    FeedBitIsStep(c, false);
    assert FeedBit(c, false) == Shift(c);
    assert [false][1..] == [];
    assert Feed(RegBits(c), [false]) == Feed(Step(RegBits(c), false), []);
  }

  lemma RegBitsInjective(a: bv16, b: bv16)
    requires RegBits(a) == RegBits(b)
    ensures a == b
  {
    LowByteBits(a);
    LowByteBits(b);
    HighByteBits(a);
    HighByteBits(b);
    ByteBitsInjective(LowByte(a), LowByte(b));
    ByteBitsInjective(HighByte(a), HighByte(b));
    BytesMake(a);
    BytesMake(b);
  }

  lemma BytesMake(a: bv16)
    ensures a == (LowByte(a) as bv16) | ((HighByte(a) as bv16) << 8)
  {
  }

  lemma ShiftInjective(a: bv16, b: bv16)
    requires Shift(a) == Shift(b)
    ensures a == b
  {
    ShiftUndone(a);
    ShiftUndone(b);
  }

  // The highest bit of the result tells whether the taps were applied.
  lemma ShiftUndone(a: bv16)
    ensures a == if Shift(a) & 0x8000 != 0 then ((Shift(a) ^ 0xA001) << 1) | 1 else Shift(a) << 1
  {
  }

  lemma {:induction false} ShiftsInjective(a: bv16, b: bv16, n: nat)
    requires Shifts(a, n) == Shifts(b, n)
    ensures a == b
  {
    if n > 0 {
      ShiftInjective(Shifts(a, n - 1), Shifts(b, n - 1));
      ShiftsInjective(a, b, n - 1);
    }
  }

  // x^15 comes back after n steps exactly when 1 does.
  lemma OneBitReturns(n: nat)
    ensures Shifts(1, n) == 1 <==> Cycles(n)
  {
    assert Power(15) == 1 by {
      PowerOne();
      Odd(1, 0x4000, 0x1000);
      Odd(3, 0x1000, 0x0100);
      Odd(7, 0x0100, 0x0001);
    }
    ShiftsAdd(UNIT, 15, n);
    ShiftsAdd(UNIT, n, 15);
    if Shifts(1, n) == 1 {
      ShiftsInjective(Power(n), UNIT, 15);
    }
  }

  // An error that flips bits i and j and no others.
  ghost predicate TwoBits(e: Bits, i: nat, j: nat) {
    i < j < |e| && forall k | 0 <= k < |e| :: e[k] <==> k == i || k == j
  }

  lemma TwoBitsShape(e: Bits, i: nat, j: nat)
    requires TwoBits(e, i, j)
    ensures e == Zeros(i) + ([true] + (Zeros(j - i - 1) + ([true] + Zeros(|e| - j - 1))))
  {
  }

  // Two flipped bits, anywhere in a message of any length, leave no trace exactly when they are
  // a multiple of 32767 bits apart.
  lemma TwoBitsVanishExactlyWhen(e: Bits, i: nat, j: nat)
    requires TwoBits(e, i, j)
    ensures Feed(Zeros(16), e) == Zeros(16) <==> (j - i) % 32767 == 0
  {
    TwoBitsShape(e, i, j);
    var gap, tail := j - i - 1, |e| - j - 1;
    AfterTwoBits(i, gap, tail);
    OneBitReturns(gap + 1);
    OrderOfX(gap + 1);
  }

  lemma AfterTwoBits(lead: nat, gap: nat, tail: nat)
    ensures Feed(Zeros(16), Zeros(lead) + ([true] + (Zeros(gap) + ([true] + Zeros(tail))))) == Zeros(16)
            <==> Shifts(1, gap + 1) == 1
  {
    var rest := Zeros(gap) + ([true] + Zeros(tail));
    FeedConcat(Zeros(16), Zeros(lead), [true] + rest);
    EmptiedByZeros(Zeros(16), lead);
    FeedConcat(Zeros(16), [true], rest);
    OneBitIn();
    var c := Shift(1);
    FeedConcat(RegBits(c), Zeros(gap), [true] + Zeros(tail));
    FeedZeros(c, gap);
    ShiftsAdd(1, 1, gap);
    assert Shifts(1, 1) == Shift(Shifts(1, 0));
    var d := Shifts(c, gap);
    FeedConcat(RegBits(d), [true], Zeros(tail));
    EmptiedByZeros(Feed(RegBits(d), [true]), tail);
    EmptiedBy(RegBits(d), [true]);
    OneBitRegister();
    if RegBits(d) == RegBits(1) {
      RegBitsInjective(d, 1);
    }
  }

  lemma OneBitRegister()
    ensures RegBits(1) == [true] + Zeros(15)
  {
  }

  lemma OneBitIn()
    ensures Feed(Zeros(16), [true]) == RegBits(Shift(1))
  {
    RegBitsZero(0);
    FeedBitIsStep(0, true);
    assert FeedBit(0, true) == Shift(1);
    assert [true][1..] == [];
    assert Feed(Zeros(16), [true]) == Feed(Step(Zeros(16), true), []);
  }

  lemma {:induction false} NoBits(w: Bits)
    requires Weight(w) == 0
    ensures w == Zeros(|w|)
  {
    if w != [] {
      NoBits(w[1..]);
      assert w == [w[0]] + w[1..];
    }
  }

  lemma {:induction false} OneBit(w: Bits) returns (j: nat)
    requires Weight(w) == 1
    ensures j < |w| && forall k | 0 <= k < |w| :: w[k] <==> k == j
  {
    if w[0] {
      NoBits(w[1..]);
      j := 0;
      assert forall k | 0 < k < |w| :: w[k] == w[1..][k - 1];
    } else {
      var i := OneBit(w[1..]);
      j := i + 1;
      assert forall k | 0 < k < |w| :: w[k] == w[1..][k - 1];
    }
  }

  lemma {:induction false} TwoBitsOf(w: Bits) returns (i: nat, j: nat)
    requires Weight(w) == 2
    ensures TwoBits(w, i, j)
  {
    if w[0] {
      var k := OneBit(w[1..]);
      i, j := 0, k + 1;
    } else {
      var a, b := TwoBitsOf(w[1..]);
      i, j := a + 1, b + 1;
    }
    assert forall k | 0 < k < |w| :: w[k] == w[1..][k - 1];
  }

  // ---------------------------------------------------------------- frames

  // The register ends a corrupted frame where it ends the error alone.
  lemma ErrorDecides(f: seq<bv8>, f': seq<bv8>)
    requires |f| == |f'| && ValidFrame(f)
    ensures ValidFrame(f') <==> Feed(Zeros(16), Flips(f, f')) == Zeros(16)
  {
    ResidueZero(f);
    ResidueZero(f');
    FeedLinear(Ones(16), Ones(16), FrameBits(f), FrameBits(f'));
    var r := Feed(Ones(16), FrameBits(f'));
    assert Xor(Ones(16), Ones(16)) == Zeros(16);
    XorWithZeros(r);
  }

  lemma XorWithZeros(r: Bits)
    requires |r| == 16
    ensures Xor(Zeros(16), r) == r
  {
  }

  // Exactly when two flipped bits of a frame escape, however long it is.
  lemma TwoFlipsEscapeExactlyWhen(f: seq<bv8>, f': seq<bv8>, i: nat, j: nat)
    requires |f| == |f'| && ValidFrame(f) && TwoBits(Flips(f, f'), i, j)
    ensures ValidFrame(f') <==> (j - i) % 32767 == 0
  {
    ErrorDecides(f, f');
    TwoBitsVanishExactlyWhen(Flips(f, f'), i, j);
  }

  // No one, two or three flips anywhere in a frame of at most 4095 bytes keep it valid.
  lemma FewFlipsDetected(f: seq<bv8>, f': seq<bv8>)
    requires |f| == |f'| <= 4095 && ValidFrame(f)
    requires 1 <= Weight(Flips(f, f')) <= 3
    ensures !ValidFrame(f')
  {
    if Weight(Flips(f, f')) == 2 {
      var i, j := TwoBitsOf(Flips(f, f'));
      TwoFlipsEscapeExactlyWhen(f, f', i, j);
    } else {
      OddFlipsDetected(f, f');
    }
  }
}
