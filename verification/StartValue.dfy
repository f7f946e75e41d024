/**
 What the start value 0xFFFF of the checksum is for.  From 0 the register would not see zero
 bytes in front of a frame; from 0xFFFF it sees any number of them but the multiples of 32767.

 The start value is the fifteenth difference of the register ONE, and on registers with an
 even number of ones differences lose nothing: so it has the same period as ONE.
 */
module StartValue {
  import opened BitSerial
  import opened Period
  import opened ErrorDetection
  import opened Crc16Tables
  import opened Crc16
  import opened FrameErrors

  // ---------------------------------------------------------------- the value itself

  /** The frame with an empty body carries the start value as its checksum. */
  lemma EmptyBodyTrailer(l: bv8, h: bv8)
    ensures Accepts([l, h]) <==> l == 0xFF && h == 0xFF
  {
    assert [l, h][..0] == [];
    StartBytes();
  }

  lemma StartBytes()
    ensures LowByte(INITIAL) == 0xFF && HighByte(INITIAL) == 0xFF
  {
  }

  lemma TwoByteRegister(a: bv8, b: bv8)
    ensures Register(INITIAL, [a, b]) == NextCrc(NextCrc(0xFFFF, a), b)
  {
    hide FeedByte, NextCrc;
    RegisterStep([], [a, b], 0);
    RegisterStep([a], [a, b], 1);
    assert [a, b][..1] == [a] && [a, b][..2] == [a, b] && [a, b][..0] == [];
    NextCrcIsFeedByte(INITIAL, a);
    NextCrcIsFeedByte(NextCrc(INITIAL, a), b);
  }

  /** The worked example of the standard's appendix: the checksum of 02 07 is sent as 41 12. */
  lemma StandardExample(l: bv8, h: bv8)
    ensures Accepts([0x02, 0x07, l, h]) <==> l == 0x41 && h == 0x12
  {
    hide Register, NextCrc, LowByte, HighByte;
    var f := [0x02, 0x07, l, h];
    assert f[..2] == [0x02, 0x07];
    TwoByteRegister(0x02, 0x07);
    ExampleSteps();
    ExampleBytes();
  }

  lemma ExampleSteps()
    ensures NextCrc(0xFFFF, 0x02) == 0x813E && NextCrc(0x813E, 0x07) == 0x1241
  {
    ExampleIndices();
    assert Crc16Tab(0xFD) == 0x81C1;
    assert Crc16Tab(0x39) == 0x12C0;
  }

  lemma ExampleIndices()
    ensures LowByte(AddByte(0xFFFF, 0x02)) == 0xFD && LowByte(AddByte(0x813E, 0x07)) == 0x39
  {
  }

  lemma ExampleBytes()
    ensures LowByte(0x1241) == 0x41 && HighByte(0x1241) == 0x12
  {
  }

  // ---------------------------------------------------------------- differences

  function Sum(a: bv16, b: bv16): bv16 {
    a ^ b
  }

  lemma SumIsXor(a: bv16, b: bv16)
    ensures IsXor(Sum(a, b), a, b)
    ensures Sum(a, b) == 0 <==> a == b
  {
    XorSelf(a, b);
  }

  lemma XorUnique(x: bv16, w: bv16, y: bv16, z: bv16)
    requires IsXor(x, y, z) && IsXor(w, y, z)
    ensures x == w
  {
  }

  lemma SumPairs(b: bv16, c: bv16, y: bv16, z: bv16)
    ensures Sum(b ^ c, y ^ z) == Sum(b, y) ^ Sum(c, z)
  {
  }

  lemma SumsAreXor(a: bv16, b: bv16, c: bv16, x: bv16, y: bv16, z: bv16)
    requires IsXor(a, b, c) && IsXor(x, y, z)
    ensures IsXor(Sum(a, x), Sum(b, y), Sum(c, z))
  {
    hide Sum;
    SumPairs(b, c, y, z);
  }

  /** The product of a register and x + 1. */
  function Delta(c: bv16): bv16 {
    Sum(Shift(c), c)
  }

  function Deltas(c: bv16, k: nat): bv16 {
    if k == 0 then c else Delta(Deltas(c, k - 1))
  }

  lemma DeltaIsXor(x: bv16, y: bv16, z: bv16)
    requires IsXor(x, y, z)
    ensures IsXor(Delta(x), Delta(y), Delta(z))
  {
    hide Shift, Sum, IsXor;
    ShiftIsXor(x, y, z);
    SumsAreXor(Shift(x), Shift(y), Shift(z), x, y, z);
  }

  lemma {:induction false} DeltasIsXor(x: bv16, y: bv16, z: bv16, k: nat)
    requires IsXor(x, y, z)
    ensures IsXor(Deltas(x, k), Deltas(y, k), Deltas(z, k))
  {
    hide Delta, IsXor;
    if k > 0 {
      DeltasIsXor(x, y, z, k - 1);
      DeltaIsXor(Deltas(x, k - 1), Deltas(y, k - 1), Deltas(z, k - 1));
    }
  }

  lemma DeltaShift(c: bv16)
    ensures Delta(Shift(c)) == Shift(Delta(c))
  {
    hide Shift, Sum, IsXor;
    SumIsXor(Shift(c), c);
    SumIsXor(Shift(Shift(c)), Shift(c));
    ShiftIsXor(Delta(c), Shift(c), c);
    XorUnique(Delta(Shift(c)), Shift(Delta(c)), Shift(Shift(c)), Shift(c));
  }

  lemma {:induction false} DeltaAdvance(c: bv16, n: nat)
    ensures Delta(Advance(c, n)) == Advance(Delta(c), n)
  {
    hide Delta, Shift;
    if n > 0 {
      DeltaAdvance(c, n - 1);
      DeltaShift(Advance(c, n - 1));
    }
  }

  lemma {:induction false} DeltasAdvance(c: bv16, k: nat, n: nat)
    ensures Deltas(Advance(c, n), k) == Advance(Deltas(c, k), n)
  {
    hide Delta, Advance;
    if k > 0 {
      DeltasAdvance(c, k - 1, n);
      DeltaAdvance(Deltas(c, k - 1), n);
    }
  }

  lemma NextDelta(k: nat, c: bv16, d: bv16)
    requires Deltas(ONE, k) == c && Delta(c) == d
    ensures Deltas(ONE, k + 1) == d
  {
  }

  lemma FirstDelta()
    ensures Deltas(ONE, 0) == 0x8000
  {
  }

  lemma DeltasOfOne()
    ensures Deltas(ONE, 15) == INITIAL
  {
    hide Deltas;
    FirstDelta();
    NextDelta(0, 0x8000, 0xC000);
    NextDelta(1, 0xC000, 0xA000);
    NextDelta(2, 0xA000, 0xF000);
    NextDelta(3, 0xF000, 0x8800);
    NextDelta(4, 0x8800, 0xCC00);
    NextDelta(5, 0xCC00, 0xAA00);
    NextDelta(6, 0xAA00, 0xFF00);
    NextDelta(7, 0xFF00, 0x8080);
    NextDelta(8, 0x8080, 0xC0C0);
    NextDelta(9, 0xC0C0, 0xA0A0);
    NextDelta(10, 0xA0A0, 0xF0F0);
    NextDelta(11, 0xF0F0, 0x8888);
    NextDelta(12, 0x8888, 0xCCCC);
    NextDelta(13, 0xCCCC, 0xAAAA);
    NextDelta(14, 0xAAAA, 0xFFFF);
  }

  // ---------------------------------------------------------------- even registers

  lemma DeltaIsEven(c: bv16)
    ensures !Odd(Delta(c))
  {
    hide Shift, OddBits, Sum, IsXor;
    OddShift(c);
    SumIsXor(Shift(c), c);
    OddIsXor(Delta(c), Shift(c), c, 16);
  }

  lemma FixedPoints(c: bv16)
    requires Shift(c) == c
    ensures c == 0 || c == 0xC001
  {
  }

  lemma OddFixedPoint()
    ensures Odd(0xC001)
  {
    assert OddBits(0xC001, 16) == (true != OddBits(0x6000, 15));
    assert OddBits(0x6000, 15) == OddBits(0x0600, 11);
    assert OddBits(0x0600, 11) == OddBits(0x0060, 7);
    assert OddBits(0x0060, 7) == OddBits(0x0006, 3);
    OddZero(0);
  }

  lemma EvenDeltaZero(c: bv16)
    requires !Odd(c) && Delta(c) == 0
    ensures c == 0
  {
    hide Shift, Odd, Sum;
    SumIsXor(Shift(c), c);
    FixedPoints(c);
    OddFixedPoint();
  }

  lemma {:induction false} EvenDeltasZero(c: bv16, k: nat)
    requires !Odd(c) && Deltas(c, k) == 0
    ensures c == 0
  {
    hide Delta, Odd;
    if k > 0 {
      if k > 1 {
        DeltaIsEven(Deltas(c, k - 2));
      }
      EvenDeltaZero(Deltas(c, k - 1));
      EvenDeltasZero(c, k - 1);
    }
  }

  lemma {:induction false} OddAdvance(c: bv16, n: nat)
    ensures Odd(Advance(c, n)) == Odd(c)
  {
    hide Odd, Shift;
    if n > 0 {
      OddAdvance(c, n - 1);
      OddShift(Advance(c, n - 1));
    }
  }

  // ---------------------------------------------------------------- leading zeros

  lemma ZeroIffSame(x: bv16, y: bv16, z: bv16)
    requires IsXor(x, y, z)
    ensures x == 0 <==> y == z
  {
    hide IsXor, Sum;
    SumIsXor(y, z);
    XorUnique(x, Sum(y, z), y, z);
  }

  lemma {:induction false} DeltasOfZero(k: nat)
    ensures Deltas(0, k) == 0
  {
    if k > 0 {
      DeltasOfZero(k - 1);
    }
  }

  /** The start value has the full period. */
  lemma StartPeriod(d: nat)
    ensures Advance(INITIAL, d) == INITIAL <==> d % 32767 == 0
  {
    hide Advance, Deltas, Odd, IsXor, Sum;
    var y := Sum(Advance(ONE, d), ONE);
    SumIsXor(Advance(ONE, d), ONE);
    PeriodsAreMultiples(d);
    DeltasIsXor(y, Advance(ONE, d), ONE, 15);
    DeltasAdvance(ONE, 15, d);
    DeltasOfOne();
    ZeroIffSame(Deltas(y, 15), Advance(INITIAL, d), INITIAL);
    DeltasOfZero(15);
    OddAdvance(ONE, d);
    OddXor(y, Advance(ONE, d), ONE);
    if Deltas(y, 15) == 0 {
      EvenDeltasZero(y, 15);
    }
  }

  lemma OddXor(x: bv16, y: bv16, z: bv16)
    requires IsXor(x, y, z)
    ensures Odd(x) == (Odd(y) != Odd(z))
  {
    OddIsXor(x, y, z, 16);
  }

  lemma {:induction false} RegisterConcat(r: bv16, m: seq<bv8>, n: seq<bv8>)
    ensures Register(r, m + n) == Register(Register(r, m), n)
  {
    hide FeedByte;
    if |n| == 0 {
      assert m + n == m;
    } else {
      assert (m + n)[..|m + n| - 1] == m + n[..|n| - 1];
      RegisterConcat(r, m, n[..|n| - 1]);
    }
  }

  lemma {:induction false} RegisterInjective(r: bv16, s: bv16, m: seq<bv8>)
    requires Register(r, m) == Register(s, m)
    ensures r == s
  {
    hide FeedByte;
    if |m| > 0 {
      var n := |m| - 1;
      FeedByteInjective(Register(r, m[..n]), Register(s, m[..n]), m[n]);
      RegisterInjective(r, s, m[..n]);
    }
  }

  function Zeros(n: nat): (z: seq<bv8>)
    ensures |z| == n
  {
    seq(n, _ => 0)
  }

  lemma {:induction false} ZerosAdvance(r: bv16, n: nat)
    ensures Register(r, Zeros(n)) == Advance(r, 8 * n)
  {
    hide FeedByte;
    if n > 0 {
      assert Zeros(n)[..n - 1] == Zeros(n - 1);
      ZerosAdvance(r, n - 1);
      FeedZeroByte(Register(r, Zeros(n - 1)));
      AdvanceAdd(r, 8 * (n - 1), 8);
    }
  }

  lemma EightTimes(n: nat)
    ensures (8 * n) % 32767 == 0 <==> n % 32767 == 0
  {
    if (8 * n) % 32767 == 0 {
      var q := (8 * n) / 32767;
      assert n == 32767 * (4096 * q - n);
    }
  }

  /** Zero bytes in front of an accepted frame are accepted exactly in multiples of 32767. */
  lemma LeadingZerosAcceptedIff(f: seq<bv8>, n: nat)
    requires Accepts(f)
    ensures Accepts(Zeros(n) + f) <==> n % 32767 == 0
  {
    hide Register, Advance, LowByte, HighByte;
    AcceptsIffResidueZero(f);
    AcceptsIffResidueZero(Zeros(n) + f);
    RegisterConcat(INITIAL, Zeros(n), f);
    ZerosAdvance(INITIAL, n);
    if Register(Advance(INITIAL, 8 * n), f) == 0 {
      RegisterInjective(Advance(INITIAL, 8 * n), INITIAL, f);
    }
    StartPeriod(8 * n);
    EightTimes(n);
  }

  /** In particular a single leading zero byte is always rejected. */
  lemma LeadingZeroRejected(f: seq<bv8>)
    requires Accepts(f)
    ensures !Accepts([0] + f)
  {
    hide Accepts;
    assert Zeros(1) == [0];
    LeadingZerosAcceptedIff(f, 1);
  }
}
