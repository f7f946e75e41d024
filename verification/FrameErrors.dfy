/**
 The error-detection guarantees in terms of the checkers' own verdict: `f` is a frame that
 passes the trailer test and `g` what the line made of it.
 */
module FrameErrors {
  import opened BitSerial
  import opened Period
  import opened ErrorDetection
  import opened Crc16Tables
  import opened Crc16

  lemma VerdictsAreResidues(f: seq<bv8>, g: seq<bv8>)
    requires |f| == |g| && Accepts(f)
    ensures Intact(f) && (Accepts(g) <==> Intact(g))
  {
    AcceptsIffResidueZero(f);
    AcceptsIffResidueZero(g);
  }

  /** An error within sixteen consecutive line bits, trailer included, is rejected at any length. */
  lemma BurstRejected(f: seq<bv8>, g: seq<bv8>, i: nat)
    requires |f| == |g| && f != g && Accepts(f)
    requires forall k | 0 <= k < 8 * |f| && BitErrors(f, g)[k] :: i <= k < i + 16
    ensures !Accepts(g)
  {
    hide Accepts, Intact;
    VerdictsAreResidues(f, g);
    BurstDetected(f, g, i);
  }

  /** Of all errors within seventeen consecutive bits exactly one is accepted: the generator itself. */
  lemma SeventeenBitBurstAcceptedIff(f: seq<bv8>, g: seq<bv8>, i: nat)
    requires |f| == |g| && f != g && Accepts(f) && i + 17 <= 8 * |f|
    requires forall k | 0 <= k < 8 * |f| && BitErrors(f, g)[k] :: i <= k < i + 17
    ensures Accepts(g) <==> BitErrors(f, g)[i..i + 17] == GeneratorBits()
  {
    hide Accepts, Intact;
    VerdictsAreResidues(f, g);
    SeventeenBitBurstUndetectedIff(f, g, i);
  }

  /** An odd number of flipped bits is rejected at any length. */
  lemma OddErrorsRejected(f: seq<bv8>, g: seq<bv8>)
    requires |f| == |g| && Accepts(f) && Ones(BitErrors(f, g)) % 2 == 1
    ensures !Accepts(g)
  {
    hide Accepts, Intact;
    VerdictsAreResidues(f, g);
    OddErrorsDetected(f, g);
  }

  /** Accepted frames carry an even number of one bits. */
  lemma AcceptedFramesAreEven(f: seq<bv8>)
    requires Accepts(f)
    ensures Ones(Bits(f)) % 2 == 0
  {
    hide Accepts, Intact;
    VerdictsAreResidues(f, f);
    IntactFramesAreEven(f);
  }

  /** Two flipped bits are accepted exactly when a multiple of 32767 bits lies between them. */
  lemma DoubleErrorAcceptedIff(f: seq<bv8>, g: seq<bv8>, i: nat, j: nat)
    requires |f| == |g| && Accepts(f) && OnlyErrors(BitErrors(f, g), i, j)
    ensures Accepts(g) <==> (j - i) % PERIOD == 0
  {
    hide Accepts, Intact;
    VerdictsAreResidues(f, g);
    DoubleErrorUndetectedIff(f, g, i, j);
  }

  /** Two accepted frames of equal length are at least four bits apart, above 4095 bytes two. */
  lemma AcceptedFramesApart(f: seq<bv8>, g: seq<bv8>)
    requires |f| == |g| && f != g && Accepts(f) && Accepts(g)
    ensures Ones(BitErrors(f, g)) >= LeastDistance(|f|)
  {
    hide Accepts, Intact;
    VerdictsAreResidues(f, g);
    MinimumDistance(f, g);
  }

  /** Up to three bit errors in a frame of up to 4095 bytes are always rejected. */
  lemma FewErrorsRejected(f: seq<bv8>, g: seq<bv8>)
    requires |f| == |g| && f != g && Accepts(f) && Ones(BitErrors(f, g)) < LeastDistance(|f|)
    ensures !Accepts(g)
  {
    hide Accepts;
    if Accepts(g) {
      AcceptedFramesApart(f, g);
    }
  }

  // ---------------------------------------------------------------- patterns that go unnoticed

  /** A frame with a pattern of errors added is accepted exactly when the pattern divides out. */
  lemma PatternAcceptedIff(f: seq<bv8>, e: seq<bv8>)
    requires |f| == |e| && Accepts(f)
    ensures Accepts(XorBytes(f, e)) <==> Register(0, e) == 0
    ensures BitErrors(f, XorBytes(f, e)) == Bits(e)
  {
    hide Accepts, Intact, Register;
    VerdictsAreResidues(f, XorBytes(f, e));
    UndetectedIff(f, XorBytes(f, e));
    ErrorsArePattern(f, e);
    RegisterIsBits(0, e);
  }

  /** `m` and `n` zero bytes behind it. */
  function ThenZeros(m: seq<bv8>, n: nat): (s: seq<bv8>)
    ensures |s| == |m| + n
  {
    if n == 0 then m else ThenZeros(m, n - 1) + [0]
  }

  lemma Append(m: seq<bv8>, b: bv8)
    ensures Register(0, m + [b]) == FeedByte(Register(0, m), b)
    ensures Ones(Bits(m + [b])) == Ones(Bits(m)) + Ones(ByteBits(b))
  {
    assert (m + [b])[..|m|] == m;
    OnesConcat(Bits(m), ByteBits(b));
  }

  lemma FeedZeroByte(r: bv16)
    ensures FeedByte(r, 0) == Advance(r, 8)
  {
    AddZeroByte(r);
  }

  lemma AddZeroByte(r: bv16)
    ensures AddByte(r, 0) == r
  {
  }

  lemma ZeroByteBits()
    ensures Ones(ByteBits(0)) == 0
  {
    LowBitsZero(8);
    AllFalse(ByteBits(0));
  }

  lemma {:induction false} AfterZeros(m: seq<bv8>, n: nat)
    ensures Register(0, ThenZeros(m, n)) == Advance(Register(0, m), 8 * n)
    ensures Ones(Bits(ThenZeros(m, n))) == Ones(Bits(m))
  {
    hide Register, Bits, Ones, FeedByte;
    if n > 0 {
      AfterZeros(m, n - 1);
      Append(ThenZeros(m, n - 1), 0);
      FeedZeroByte(Register(0, ThenZeros(m, n - 1)));
      AdvanceAdd(Register(0, m), 8 * (n - 1), 8);
      ZeroByteBits();
    }
  }

  /** The generator as the last bytes of a frame: four errors within seventeen bits. */
  function FourErrors(n: nat): (e: seq<bv8>)
    requires n >= 3
    ensures |e| == n
  {
    ThenZeros([], n - 3) + [0x03] + [0x40] + [0x01]
  }

  /** Two errors 32767 bits apart: the first bit of a byte and the last bit of the 4096th from there. */
  function TwoErrors(n: nat): (e: seq<bv8>)
    requires n >= 4096
    ensures |e| == n
  {
    ThenZeros(ThenZeros([], n - 4096) + [0x01], 4094) + [0x80]
  }

  lemma OnesFromLow(c: bv16, n: nat)
    requires n > 0
    ensures Ones(LowBits(c, n)) == (if LowBit(c) then 1 else 0) + Ones(LowBits(Half(c), n - 1))
  {
    hide LowBits, LowBit, Half;
    FirstLowBit(c, n);
    OnesConcat([LowBit(c)], LowBits(Half(c), n - 1));
    assert Ones([LowBit(c)]) == if LowBit(c) then 1 else 0;
  }

  lemma LowestOne(n: nat)
    requires n > 0
    ensures Ones(LowBits(1, n)) == 1
  {
    hide LowBits;
    OnesFromLow(1, n);
    LowBitsZero(n - 1);
    AllFalse(LowBits(0, n - 1));
  }

  lemma PatternOnes()
    ensures Ones(ByteBits(0x01)) == 1 && Ones(ByteBits(0x03)) == 2
    ensures Ones(ByteBits(0x40)) == 1 && Ones(ByteBits(0x80)) == 1
  {
    hide LowBits, Ones;
    LowestOne(8);
    OnesFromLow(3, 8);
    LowestOne(7);
    OnesFromLow(0x80, 8);
    OnesFromLow(0x40, 7);
    OnesFromLow(0x20, 6);
    OnesFromLow(0x10, 5);
    OnesFromLow(0x08, 4);
    OnesFromLow(0x04, 3);
    OnesFromLow(0x02, 2);
    LowestOne(1);
    OnesFromLow(0x40, 8);
    OnesFromLow(0x20, 7);
    OnesFromLow(0x10, 6);
    OnesFromLow(0x08, 5);
    OnesFromLow(0x04, 4);
    OnesFromLow(0x02, 3);
    LowestOne(2);
  }

  lemma StartsAtZero(n: nat)
    ensures Register(0, ThenZeros([], n)) == 0 && Ones(Bits(ThenZeros([], n))) == 0
  {
    AfterZeros([], n);
    AdvanceZero(8 * n);
  }

  /** The byte 3 leaves its own two checksum bytes 0x40, 0x01 in the register. */
  lemma ThreeLeaves()
    ensures FeedByte(0, 0x03) == 0x0140
  {
    TableEntry(3);
    NextCrcIsFeedByte(0, 0x03);
    assert Crc16Tab(3) == 0x0140;
  }

  lemma FourErrorsPass(n: nat)
    requires n >= 3
    ensures Register(0, FourErrors(n)) == 0 && Ones(Bits(FourErrors(n))) == 4
  {
    hide Register, Bits, Ones, FeedByte, ByteBits, LowByte, HighByte;
    var z := ThenZeros([], n - 3);
    StartsAtZero(n - 3);
    Append(z, 0x03);
    Append(z + [0x03], 0x40);
    Append(z + [0x03] + [0x40], 0x01);
    ThreeLeaves();
    TrailerEmptiesRegister(0x0140, 0x40, 0x01);
    BytesOf0140();
    PatternOnes();
  }

  lemma BytesOf0140()
    ensures LowByte(0x0140) == 0x40 && HighByte(0x0140) == 0x01
  {
  }

  lemma OneBitFed()
    ensures FeedByte(0, 0x01) == Advance(1, 8)
  {
    assert AddByte(0, 0x01) == 1;
  }

  lemma TopBitShiftsDown()
    ensures Advance(0x80, 7) == 1
  {
    assert Advance(0x80, 7) == Shift(Advance(0x80, 6));
  }

  /** A bit fed first comes to stand in the top bit of the 4096th byte just before that byte. */
  lemma BitReturns()
    ensures Advance(1, 32760) == 0x80
  {
    LastBitPeriod(32767);
    TopBitShiftsDown();
    AdvanceAdd(1, 32760, 7);
    AdvanceInjective(Advance(1, 32760), 0x80, 7);
  }

  lemma TwoErrorsPass(n: nat)
    requires n >= 4096
    ensures Register(0, TwoErrors(n)) == 0 && Ones(Bits(TwoErrors(n))) == 2
  {
    hide Register, Bits, Ones, FeedByte, ByteBits, Advance;
    var z := ThenZeros([], n - 4096);
    StartsAtZero(n - 4096);
    Append(z, 0x01);
    OneBitFed();
    AfterZeros(z + [0x01], 4094);
    AdvanceAdd(1, 8, 32752);
    BitReturns();
    Append(ThenZeros(z + [0x01], 4094), 0x80);
    TopBitCleared();
    PatternOnes();
  }

  lemma TopBitCleared()
    ensures FeedByte(0x80, 0x80) == 0
  {
    AdvanceZero(8);
    assert AddByte(0x80, 0x80) == 0;
  }

  /** The least distance is attained from every accepted frame that has a byte besides its trailer. */
  lemma LeastDistanceAttained(f: seq<bv8>) returns (g: seq<bv8>)
    requires |f| >= 3 && Accepts(f)
    ensures |g| == |f| && g != f && Accepts(g)
    ensures Ones(BitErrors(f, g)) == LeastDistance(|f|)
  {
    hide Accepts, Register, Ones, Bits, FourErrors, TwoErrors, XorBytes, BitErrors;
    var e := if |f| <= 4095 then FourErrors(|f|) else TwoErrors(|f|);
    if |f| <= 4095 {
      FourErrorsPass(|f|);
    } else {
      TwoErrorsPass(|f|);
    }
    PatternAcceptedIff(f, e);
    g := XorBytes(f, e);
    SameIffNoOnes(f, g);
  }

  /** The trailer of a frame that has nothing else is fixed. */
  lemma ShortestFrameUnique(f: seq<bv8>, g: seq<bv8>)
    requires |f| == |g| == 2 && Accepts(f) && Accepts(g)
    ensures f == g
  {
    hide Accepts;
    if f != g {
      BurstRejected(f, g, 0);
    }
  }
}
