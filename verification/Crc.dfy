/**
 CRC-16/MODBUS: the bit-serial register of `crc16_modbus` and the algebra over GF(2)
 it implements.

 Bit strings are written in transmission order: each byte leaves the UART least
 significant bit first, and the first transmitted bit is the leading coefficient of the
 polynomial.  The reflected 16-bit register read from its least significant bit upwards
 is therefore a polynomial of degree below 16, leading coefficient first.
 */
module Crc {

  type Bits = seq<bool>

  // ---------------------------------------------------------------- the register loop

  function Shift(crc: bv16): bv16 {
    if crc & 1 != 0 then (crc >> 1) ^ 0xA001 else crc >> 1
  }

  function Shifts(crc: bv16, n: nat): bv16 {
    if n == 0 then crc else Shift(Shifts(crc, n - 1))
  }

  function Absorb(crc: bv16, b: bv8): bv16 {
    Shifts(crc ^ (b as bv16), 8)
  }

  function CrcFrom(crc: bv16, bytes: seq<bv8>): bv16 {
    if bytes == [] then crc
    else Absorb(CrcFrom(crc, bytes[..|bytes| - 1]), bytes[|bytes| - 1])
  }

  const INIT: bv16 := 0xFFFF

  function Crc16(bytes: seq<bv8>): bv16 {
    CrcFrom(INIT, bytes)
  }

  method ComputeCrc(buf: array<bv8>, len: nat) returns (crc: bv16)
    requires len <= buf.Length
    ensures crc == Crc16(buf[..len])
  {
    crc := 0xFFFF;
    for i := 0 to len
      invariant crc == Crc16(buf[..i])
    {
      ghost var before := crc;
      crc := crc ^ (buf[i] as bv16);
      ghost var loaded := crc;
      for j := 0 to 8
        invariant crc == Shifts(loaded, j)
      {
        if crc & 1 != 0 {
          crc := (crc >> 1) ^ 0xA001;
        } else {
          crc := crc >> 1;
        }
      }
      assert crc == Absorb(before, buf[i]);
      assert buf[..i + 1][..i] == buf[..i];
    }
  }

  // ---------------------------------------------------------------- bit strings

  function RegBits(crc: bv16): (r: Bits)
    ensures |r| == 16
  {
    [crc & 0x0001 != 0, crc & 0x0002 != 0, crc & 0x0004 != 0, crc & 0x0008 != 0,
     crc & 0x0010 != 0, crc & 0x0020 != 0, crc & 0x0040 != 0, crc & 0x0080 != 0,
     crc & 0x0100 != 0, crc & 0x0200 != 0, crc & 0x0400 != 0, crc & 0x0800 != 0,
     crc & 0x1000 != 0, crc & 0x2000 != 0, crc & 0x4000 != 0, crc & 0x8000 != 0]
  }

  function ByteBits(b: bv8): (r: Bits)
    ensures |r| == 8
  {
    [b & 0x01 != 0, b & 0x02 != 0, b & 0x04 != 0, b & 0x08 != 0,
     b & 0x10 != 0, b & 0x20 != 0, b & 0x40 != 0, b & 0x80 != 0]
  }

  function FrameBits(bytes: seq<bv8>): (r: Bits)
    ensures |r| == 8 * |bytes|
  {
    if bytes == [] then []
    else FrameBits(bytes[..|bytes| - 1]) + ByteBits(bytes[|bytes| - 1])
  }

  function Zeros(n: nat): (r: Bits)
    ensures |r| == n && forall i | 0 <= i < n :: !r[i]
  {
    seq(n, i => false)
  }

  function Ones(n: nat): (r: Bits)
    ensures |r| == n && forall i | 0 <= i < n :: r[i]
  {
    seq(n, i => true)
  }

  function Xor(a: Bits, b: Bits): (r: Bits)
    requires |a| == |b|
    ensures |r| == |a| && forall i | 0 <= i < |a| :: r[i] == (a[i] != b[i])
  {
    seq(|a|, i requires 0 <= i < |a| => a[i] != b[i])
  }

  // One clock of the shift register: the taps are x^15, x^2 and x^0.
  function Step(r: Bits, b: bool): (r': Bits)
    requires |r| == 16
    ensures |r'| == 16
    ensures r'[15] == (r[0] != b)
    ensures forall i | 0 <= i < 15 :: r'[i] == (r[i + 1] != (r[0] != b && (i == 0 || i == 13)))
  {
    var t := r[0] != b;
    seq(16, i requires 0 <= i < 16 => if i == 15 then t else r[i + 1] != (t && (i == 0 || i == 13)))
  }

  function Feed(r: Bits, w: Bits): (r': Bits)
    requires |r| == 16
    ensures |r'| == 16
    decreases |w|
  {
    if w == [] then r else Feed(Step(r, w[0]), w[1..])
  }

  lemma {:induction false} FeedConcat(r: Bits, a: Bits, b: Bits)
    requires |r| == 16
    ensures Feed(r, a + b) == Feed(Feed(r, a), b)
    decreases |a|
  {
    if a == [] {
      assert a + b == b;
    } else {
      assert (a + b)[0] == a[0] && (a + b)[1..] == a[1..] + b;
      FeedConcat(Step(r, a[0]), a[1..], b);
    }
  }

  // ---------------------------------------------------------------- the loop feeds bits

  function FeedBit(crc: bv16, b: bool): bv16 {
    if (crc & 1 != 0) != b then (crc >> 1) ^ 0xA001 else crc >> 1
  }

  function Clock(r: Bits, b: bool): (r': Bits)
    requires |r| == 16
    ensures |r'| == 16
  {
    var t := r[0] != b;
    [r[1] != t, r[2], r[3], r[4], r[5], r[6], r[7], r[8],
     r[9], r[10], r[11], r[12], r[13], r[14] != t, r[15], t]
  }

  lemma ClockIsStep(r: Bits, b: bool)
    requires |r| == 16
    ensures Clock(r, b) == Step(r, b)
  {
  }

  lemma ShiftedBits(crc: bv16)
    ensures && ((crc >> 1) & 0x0001 != 0) == (crc & 0x0002 != 0)
            && ((crc >> 1) & 0x0002 != 0) == (crc & 0x0004 != 0)
            && ((crc >> 1) & 0x0004 != 0) == (crc & 0x0008 != 0)
            && ((crc >> 1) & 0x0008 != 0) == (crc & 0x0010 != 0)
            && ((crc >> 1) & 0x0010 != 0) == (crc & 0x0020 != 0)
            && ((crc >> 1) & 0x0020 != 0) == (crc & 0x0040 != 0)
            && ((crc >> 1) & 0x0040 != 0) == (crc & 0x0080 != 0)
            && ((crc >> 1) & 0x0080 != 0) == (crc & 0x0100 != 0)
            && ((crc >> 1) & 0x0100 != 0) == (crc & 0x0200 != 0)
            && ((crc >> 1) & 0x0200 != 0) == (crc & 0x0400 != 0)
            && ((crc >> 1) & 0x0400 != 0) == (crc & 0x0800 != 0)
            && ((crc >> 1) & 0x0800 != 0) == (crc & 0x1000 != 0)
            && ((crc >> 1) & 0x1000 != 0) == (crc & 0x2000 != 0)
            && ((crc >> 1) & 0x2000 != 0) == (crc & 0x4000 != 0)
            && ((crc >> 1) & 0x4000 != 0) == (crc & 0x8000 != 0)
            && ((crc >> 1) & 0x8000 != 0) == false
  {
  }

  // 0xA001 flips bits 0, 13 and 15.
  lemma TappedBits(crc: bv16)
    ensures && ((crc ^ 0xA001) & 0x0001 != 0) == (crc & 0x0001 == 0)
            && ((crc ^ 0xA001) & 0x0002 != 0) == (crc & 0x0002 != 0)
            && ((crc ^ 0xA001) & 0x0004 != 0) == (crc & 0x0004 != 0)
            && ((crc ^ 0xA001) & 0x0008 != 0) == (crc & 0x0008 != 0)
            && ((crc ^ 0xA001) & 0x0010 != 0) == (crc & 0x0010 != 0)
            && ((crc ^ 0xA001) & 0x0020 != 0) == (crc & 0x0020 != 0)
            && ((crc ^ 0xA001) & 0x0040 != 0) == (crc & 0x0040 != 0)
            && ((crc ^ 0xA001) & 0x0080 != 0) == (crc & 0x0080 != 0)
            && ((crc ^ 0xA001) & 0x0100 != 0) == (crc & 0x0100 != 0)
            && ((crc ^ 0xA001) & 0x0200 != 0) == (crc & 0x0200 != 0)
            && ((crc ^ 0xA001) & 0x0400 != 0) == (crc & 0x0400 != 0)
            && ((crc ^ 0xA001) & 0x0800 != 0) == (crc & 0x0800 != 0)
            && ((crc ^ 0xA001) & 0x1000 != 0) == (crc & 0x1000 != 0)
            && ((crc ^ 0xA001) & 0x2000 != 0) == (crc & 0x2000 == 0)
            && ((crc ^ 0xA001) & 0x4000 != 0) == (crc & 0x4000 != 0)
            && ((crc ^ 0xA001) & 0x8000 != 0) == (crc & 0x8000 == 0)
  {
  }

  function Shifted(r: Bits): (s: Bits)
    requires |r| == 16
    ensures |s| == 16
  {
    [r[1], r[2], r[3], r[4], r[5], r[6], r[7], r[8],
     r[9], r[10], r[11], r[12], r[13], r[14], r[15], false]
  }

  function Tapped(s: Bits): (x: Bits)
    requires |s| == 16
    ensures |x| == 16
  {
    [!s[0], s[1], s[2], s[3], s[4], s[5], s[6], s[7],
     s[8], s[9], s[10], s[11], s[12], !s[13], s[14], !s[15]]
  }

  lemma ShiftedRegister(crc: bv16)
    ensures RegBits(crc >> 1) == Shifted(RegBits(crc))
  {
    ShiftedBits(crc);
  }

  lemma TappedRegister(crc: bv16)
    ensures RegBits(crc ^ 0xA001) == Tapped(RegBits(crc))
  {
    TappedBits(crc);
  }

  lemma ClockCases(r: Bits, b: bool)
    requires |r| == 16
    ensures Clock(r, b) == if r[0] != b then Tapped(Shifted(r)) else Shifted(r)
  {
  }

  lemma FeedBitIsClock(crc: bv16, b: bool)
    ensures RegBits(FeedBit(crc, b)) == Clock(RegBits(crc), b)
  {
    ShiftedRegister(crc);
    TappedRegister(crc >> 1);
    ClockCases(RegBits(crc), b);
  }

  lemma FeedBitIsStep(crc: bv16, b: bool)
    ensures RegBits(FeedBit(crc, b)) == Step(RegBits(crc), b)
  {
    FeedBitIsClock(crc, b);
    ClockIsStep(RegBits(crc), b);
  }

  // The unconsumed bits of a loaded byte ride along unchanged, one place lower per shift.
  lemma ShiftLoaded(crc: bv16, m: bv16)
    ensures Shift(crc ^ m) == FeedBit(crc, m & 1 != 0) ^ (m >> 1)
  {
    ShiftRightXor(crc, m);
    LowBitXor(crc, m);
    if (crc & 1 != 0) != (m & 1 != 0) {
      XorSwap(crc >> 1, m >> 1, 0xA001);
    }
  }

  lemma ShiftRightXor(a: bv16, b: bv16)
    ensures (a ^ b) >> 1 == (a >> 1) ^ (b >> 1)
  {
  }

  lemma LowBitXor(a: bv16, b: bv16)
    ensures ((a ^ b) & 1 != 0) == ((a & 1 != 0) != (b & 1 != 0))
  {
  }

  lemma XorSwap(a: bv16, b: bv16, c: bv16)
    ensures (a ^ b) ^ c == (a ^ c) ^ b
  {
  }

  lemma {:induction false} ShiftsLoaded(crc: bv16, m: bv16, n: nat)
    requires n < 8
    ensures Shifts(crc ^ m, n + 1) == Shifts(FeedBit(crc, m & 1 != 0) ^ (m >> 1), n)
  {
    if n == 0 {
      assert Shifts(crc ^ m, 1) == Shift(Shifts(crc ^ m, 0));
      ShiftLoaded(crc, m);
    } else {
      ShiftsLoaded(crc, m, n - 1);
    }
  }

  lemma ByteOverRegister(b: bv8)
    ensures var m := b as bv16;
            && (m & 1 != 0) == (b & 0x01 != 0)
            && ((m >> 1) & 1 != 0) == (b & 0x02 != 0)
            && ((m >> 1 >> 1) & 1 != 0) == (b & 0x04 != 0)
            && ((m >> 1 >> 1 >> 1) & 1 != 0) == (b & 0x08 != 0)
            && ((m >> 1 >> 1 >> 1 >> 1) & 1 != 0) == (b & 0x10 != 0)
            && ((m >> 1 >> 1 >> 1 >> 1 >> 1) & 1 != 0) == (b & 0x20 != 0)
            && ((m >> 1 >> 1 >> 1 >> 1 >> 1 >> 1) & 1 != 0) == (b & 0x40 != 0)
            && ((m >> 1 >> 1 >> 1 >> 1 >> 1 >> 1 >> 1) & 1 != 0) == (b & 0x80 != 0)
            && m >> 1 >> 1 >> 1 >> 1 >> 1 >> 1 >> 1 >> 1 == 0
  {
  }

  function Serial(crc: bv16, w: Bits): bv16
    decreases |w|
  {
    if w == [] then crc else Serial(FeedBit(crc, w[0]), w[1..])
  }

  lemma {:induction false} SerialIsFeed(crc: bv16, w: Bits)
    ensures RegBits(Serial(crc, w)) == Feed(RegBits(crc), w)
    decreases |w|
  {
    if w != [] {
      FeedBitIsStep(crc, w[0]);
      SerialIsFeed(FeedBit(crc, w[0]), w[1..]);
    }
  }

  // Loading a register with m and shifting n times is feeding the low n bits of m.
  lemma {:induction false} LoadIsSerial(crc: bv16, m: bv16, w: Bits)
    requires |w| <= 8 && LowBits(m, w)
    ensures Shifts(crc ^ m, |w|) == Serial(crc, w)
    decreases |w|
  {
    if w == [] {
      assert crc ^ 0 == crc;
    } else {
      ShiftsLoaded(crc, m, |w| - 1);
      LoadIsSerial(FeedBit(crc, w[0]), m >> 1, w[1..]);
    }
  }

  predicate LowBits(m: bv16, w: Bits)
    decreases |w|
  {
    if w == [] then m == 0 else w[0] == (m & 1 != 0) && LowBits(m >> 1, w[1..])
  }

  lemma UpperNibbleLowBits(m: bv16, w: Bits)
    requires |w| == 4
    requires w[0] == (m & 1 != 0) && w[1] == ((m >> 1) & 1 != 0)
    requires w[2] == ((m >> 1 >> 1) & 1 != 0) && w[3] == ((m >> 1 >> 1 >> 1) & 1 != 0)
    requires m >> 1 >> 1 >> 1 >> 1 == 0
    ensures LowBits(m, w)
  {
    assert w[1..][1..] == w[2..] && w[2..][1..] == w[3..] && w[3..][1..] == [];
    assert LowBits(m >> 1 >> 1 >> 1, w[3..]);
    assert LowBits(m >> 1 >> 1, w[2..]);
    assert LowBits(m >> 1, w[1..]);
  }

  lemma LowerNibbleLowBits(m: bv16, w: Bits)
    requires |w| == 8
    requires w[0] == (m & 1 != 0) && w[1] == ((m >> 1) & 1 != 0)
    requires w[2] == ((m >> 1 >> 1) & 1 != 0) && w[3] == ((m >> 1 >> 1 >> 1) & 1 != 0)
    requires LowBits(m >> 1 >> 1 >> 1 >> 1, w[4..])
    ensures LowBits(m, w)
  {
    assert w[1..][1..] == w[2..] && w[2..][1..] == w[3..] && w[3..][1..] == w[4..];
    assert LowBits(m >> 1 >> 1 >> 1, w[3..]);
    assert LowBits(m >> 1 >> 1, w[2..]);
    assert LowBits(m >> 1, w[1..]);
  }

  lemma ByteUpperLowBits(b: bv8)
    ensures LowBits((b as bv16) >> 1 >> 1 >> 1 >> 1, ByteBits(b)[4..])
  {
    ByteOverRegister(b);
    var w := ByteBits(b);
    assert w[4..] == [w[4], w[5], w[6], w[7]];
    UpperNibbleLowBits((b as bv16) >> 1 >> 1 >> 1 >> 1, [w[4], w[5], w[6], w[7]]);
  }

  lemma ByteLowBits(b: bv8)
    ensures LowBits(b as bv16, ByteBits(b))
  {
    ByteUpperLowBits(b);
    ByteOverRegister(b);
    hide LowBits;
    LowerNibbleLowBits(b as bv16, ByteBits(b));
  }

  lemma AbsorbIsFeed(crc: bv16, b: bv8)
    ensures RegBits(Absorb(crc, b)) == Feed(RegBits(crc), ByteBits(b))
  {
    ByteLowBits(b);
    LoadIsSerial(crc, b as bv16, ByteBits(b));
    SerialIsFeed(crc, ByteBits(b));
  }

  // The byte-wise loop is the bit-wise shift register over the transmitted bits.
  lemma {:induction false} CrcFromIsFeed(crc: bv16, bytes: seq<bv8>)
    ensures RegBits(CrcFrom(crc, bytes)) == Feed(RegBits(crc), FrameBits(bytes))
  {
    if bytes != [] {
      var n := |bytes| - 1;
      CrcFromIsFeed(crc, bytes[..n]);
      AbsorbIsFeed(CrcFrom(crc, bytes[..n]), bytes[n]);
      FeedConcat(RegBits(crc), FrameBits(bytes[..n]), ByteBits(bytes[n]));
    }
  }

  lemma CrcIsFeed(bytes: seq<bv8>)
    ensures RegBits(Crc16(bytes)) == Feed(Ones(16), FrameBits(bytes))
  {
    CrcFromIsFeed(INIT, bytes);
    assert RegBits(INIT) == Ones(16);
  }
}
