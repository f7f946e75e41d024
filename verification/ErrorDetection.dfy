/**
 What the checksum detects.  A frame is intact when dividing all of it, trailer included,
 leaves register 0 (`Crc16.AcceptsIffResidueZero` shows that this is the checkers' test).
 The transmission error between two frames is the string of bits in which they differ, and
 everything below follows from one fact: the register of that string alone decides.
 */
module ErrorDetection {
  import opened BitSerial
  import opened Period

  predicate Intact(f: seq<bv8>) {
    Register(INITIAL, f) == 0
  }

  function Difference(a: seq<bool>, b: seq<bool>): (d: seq<bool>)
    requires |a| == |b|
    ensures |d| == |a|
    ensures forall k | 0 <= k < |d| :: d[k] == (a[k] != b[k])
  {
    seq(|a|, k requires 0 <= k < |a| => a[k] != b[k])
  }

  /** The line bits in which two frames differ. */
  function BitErrors(f: seq<bv8>, g: seq<bv8>): (d: seq<bool>)
    requires |f| == |g|
    ensures |d| == 8 * |f|
  {
    Difference(Bits(f), Bits(g))
  }

  function Ones(e: seq<bool>): nat {
    if |e| == 0 then 0 else Ones(e[..|e| - 1]) + (if e[|e| - 1] then 1 else 0)
  }

  // ---------------------------------------------------------------- linearity

  lemma FeedIsXor(x: bv16, y: bv16, z: bv16, a: bool, b: bool)
    requires IsXor(x, y, z)
    ensures IsXor(Feed(x, a != b), Feed(y, a), Feed(z, b))
  {
    hide Feed;
    FeedXor(y, z, a, b);
  }

  lemma {:induction false} FeedBitsIsXor(x: bv16, y: bv16, z: bv16, a: seq<bool>, b: seq<bool>)
    requires |a| == |b| && IsXor(x, y, z)
    ensures IsXor(FeedBits(x, Difference(a, b)), FeedBits(y, a), FeedBits(z, b))
  {
    hide IsXor, Feed;
    if |a| > 0 {
      var n := |a| - 1;
      assert Difference(a, b)[..n] == Difference(a[..n], b[..n]);
      FeedBitsIsXor(x, y, z, a[..n], b[..n]);
      FeedIsXor(FeedBits(x, Difference(a[..n], b[..n])), FeedBits(y, a[..n]), FeedBits(z, b[..n]), a[n], b[n]);
    }
  }

  lemma XorSelf(a: bv16, b: bv16)
    ensures a ^ a == 0
    ensures a ^ b == 0 <==> a == b
  {
  }

  /** The registers of two equally long messages differ by the register of their difference. */
  lemma RegisterDifference(r: bv16, f: seq<bv8>, g: seq<bv8>)
    requires |f| == |g|
    ensures Register(r, f) ^ Register(r, g) == FeedBits(0, BitErrors(f, g))
  {
    RegisterIsBits(r, f);
    RegisterIsBits(r, g);
    XorSelf(r, r);
    FeedBitsIsXor(0, r, r, Bits(f), Bits(g));
  }

  /** An error goes unnoticed exactly when its own register is zero. */
  lemma UndetectedIff(f: seq<bv8>, g: seq<bv8>)
    requires |f| == |g| && Intact(f)
    ensures Intact(g) <==> FeedBits(0, BitErrors(f, g)) == 0
  {
    RegisterDifference(INITIAL, f, g);
    XorSelf(Register(INITIAL, f), Register(INITIAL, g));
    XorZero(Register(INITIAL, g));
  }

  lemma XorZero(a: bv16)
    ensures 0 ^ a == a
  {
  }

  function XorByte(a: bv8, b: bv8): bv8 {
    a ^ b
  }

  /** The byte-wise exclusive or of two messages. */
  function XorBytes(m: seq<bv8>, e: seq<bv8>): (x: seq<bv8>)
    requires |m| == |e|
    ensures |x| == |m|
    ensures forall k | 0 <= k < |x| :: x[k] == XorByte(m[k], e[k])
  {
    seq(|m|, k requires 0 <= k < |m| => XorByte(m[k], e[k]))
  }

  lemma AddXorByte(y: bv16, z: bv16, a: bv8, b: bv8)
    ensures AddByte(y ^ z, XorByte(a, b)) == AddByte(y, a) ^ AddByte(z, b)
  {
  }

  lemma WordsAreXor(x: bv16, y: bv16, z: bv16, a: bv8, b: bv8)
    requires IsXor(x, y, z)
    ensures IsXor(AddByte(x, XorByte(a, b)), AddByte(y, a), AddByte(z, b))
  {
    hide AddByte, XorByte;
    AddXorByte(y, z, a, b);
  }

  lemma FeedByteIsXor(x: bv16, y: bv16, z: bv16, a: bv8, b: bv8)
    requires IsXor(x, y, z)
    ensures IsXor(FeedByte(x, XorByte(a, b)), FeedByte(y, a), FeedByte(z, b))
  {
    hide IsXor, Advance, AddByte, XorByte;
    WordsAreXor(x, y, z, a, b);
    AdvanceIsXor(AddByte(x, XorByte(a, b)), AddByte(y, a), AddByte(z, b), 8);
  }

  lemma {:induction false} RegisterIsXor(x: bv16, y: bv16, z: bv16, m: seq<bv8>, e: seq<bv8>)
    requires |m| == |e| && IsXor(x, y, z)
    ensures IsXor(Register(x, XorBytes(m, e)), Register(y, m), Register(z, e))
  {
    hide IsXor, FeedByte, XorByte;
    if |m| > 0 {
      var n := |m| - 1;
      assert XorBytes(m, e)[..n] == XorBytes(m[..n], e[..n]);
      RegisterIsXor(x, y, z, m[..n], e[..n]);
      FeedByteIsXor(Register(x, XorBytes(m[..n], e[..n])), Register(y, m[..n]), Register(z, e[..n]), m[n], e[n]);
    }
  }

  /** Changing a message by `e` changes its checksum by an amount that depends on `e` alone. */
  lemma AffineLinearity(m: seq<bv8>, n: seq<bv8>, e: seq<bv8>)
    requires |m| == |n| == |e|
    ensures Register(INITIAL, XorBytes(m, e)) ^ Register(INITIAL, m) ==
            Register(INITIAL, XorBytes(n, e)) ^ Register(INITIAL, n)
  {
    assert IsXor(INITIAL, INITIAL, 0);
    RegisterIsXor(INITIAL, INITIAL, 0, m, e);
    RegisterIsXor(INITIAL, INITIAL, 0, n, e);
    XorTwice(Register(INITIAL, m), Register(0, e));
    XorTwice(Register(INITIAL, n), Register(0, e));
  }

  lemma XorTwice(a: bv16, e: bv16)
    ensures (a ^ e) ^ a == e
  {
  }

  // ---------------------------------------------------------------- bursts

  lemma {:induction false} FeedZeros(r: bv16, e: seq<bool>)
    requires forall k | 0 <= k < |e| :: !e[k]
    ensures FeedBits(r, e) == Advance(r, |e|)
  {
    if |e| > 0 {
      FeedZeros(r, e[..|e| - 1]);
      XorZeroRight(FeedBits(r, e[..|e| - 1]));
    }
  }

  lemma XorZeroRight(a: bv16)
    ensures a ^ BitValue(false) == a
  {
  }

  /** At most sixteen bits cannot return the register to zero unless all are zero. */
  lemma ShortStringZero(w: seq<bool>)
    requires |w| <= 16 && FeedBits(0, w) == 0
    ensures forall k | 0 <= k < |w| :: !w[k]
  {
    var c := WordOfBits(w);
    Preload(0, c, |w|);
    XorZero(c);
    AdvanceZero(|w|);
    AdvanceInjective(c, 0, |w|);
    LowBitsZero(|w|);
  }

  lemma {:induction false} LowBitsZero(n: nat)
    ensures forall k | 0 <= k < n :: !LowBits(0, n)[k]
  {
    if n > 0 {
      LowBitsZero(n - 1);
      assert LowBits(0, n) == [false] + LowBits(0, n - 1);
    }
  }

  lemma ThreeParts(e: seq<bool>, i: nat, j: nat)
    requires i <= j <= |e|
    ensures e == e[..i] + e[i..j] + e[j..]
  {
  }

  /** Errors confined to a window are decided by the window alone. */
  lemma WindowDecides(e: seq<bool>, i: nat, j: nat)
    requires i <= j <= |e|
    requires forall k | 0 <= k < |e| && e[k] :: i <= k < j
    ensures FeedBits(0, e) == Advance(FeedBits(0, e[i..j]), |e| - j)
  {
    FeedZeros(0, e[..i]);
    AdvanceZero(i);
    FeedBitsConcat(0, e[..i], e[i..j]);
    FeedBitsConcat(0, e[..i] + e[i..j], e[j..]);
    ThreeParts(e, i, j);
    FeedZeros(FeedBits(0, e[..i] + e[i..j]), e[j..]);
  }

  /**
   Burst detection: if two different frames of equal length differ only inside a window of
   at most sixteen consecutive line bits and one is intact, the other is not.
   */
  lemma BurstDetected(f: seq<bv8>, g: seq<bv8>, i: nat)
    requires |f| == |g| && f != g && Intact(f)
    requires forall k | 0 <= k < 8 * |f| && BitErrors(f, g)[k] :: i <= k < i + 16
    ensures !Intact(g)
  {
    var e := BitErrors(f, g);
    UndetectedIff(f, g);
    if FeedBits(0, e) == 0 {
      var lo := if i <= |e| then i else |e|;
      var hi := if i + 16 <= |e| then i + 16 else |e|;
      WindowDecides(e, lo, hi);
      AdvanceZero(|e| - hi);
      AdvanceInjective(FeedBits(0, e[lo..hi]), 0, |e| - hi);
      ShortStringZero(e[lo..hi]);
      OutsideAndInside(e, lo, hi);
      NoErrors(f, g);
    }
  }

  lemma OutsideAndInside(e: seq<bool>, lo: nat, hi: nat)
    requires lo <= hi <= |e|
    requires forall k | 0 <= k < |e| && e[k] :: lo <= k < hi
    requires forall k | 0 <= k < hi - lo :: !e[lo..hi][k]
    ensures forall k | 0 <= k < |e| :: !e[k]
  {
    forall k | lo <= k < hi
      ensures !e[k]
    {
      assert e[k] == e[lo..hi][k - lo];
    }
  }

  lemma NoErrors(f: seq<bv8>, g: seq<bv8>)
    requires |f| == |g|
    requires forall k | 0 <= k < 8 * |f| :: !BitErrors(f, g)[k]
    ensures f == g
  {
    forall k | 0 <= k < 8 * |f|
      ensures Bits(f)[k] == Bits(g)[k]
    {
      assert !BitErrors(f, g)[k];
    }
    BitsInjective(f, g);
  }

  // ---------------------------------------------------------------- sixteen is the limit

  /** The generator x^16 + x^15 + x^2 + 1 as line bits, highest power first. */
  function GeneratorBits(): seq<bool> {
    LowBits(0x4003, 16) + [true]
  }

  lemma GeneratorWord(c: bv16)
    ensures Advance(c, 16) == 1 <==> c == 0x4003
  {
    FifteenthPower();
    AdvanceFirst(0x4003, 15);
    if Advance(c, 16) == 1 {
      AdvanceInjective(c, 0x4003, 16);
    }
  }

  lemma FeedEmpties(x: bv16, b: bool)
    ensures Feed(x, b) == 0 <==> x == BitValue(b)
  {
  }

  /** The first sixteen bits leave 1 in the register exactly when they begin the generator. */
  lemma SixteenBitsLeaveOne(w: seq<bool>)
    requires |w| == 16
    ensures FeedBits(0, w) == 1 <==> w == LowBits(0x4003, 16)
  {
    var c := WordOfBits(w);
    Preload(0, c, 16);
    XorZero(c);
    GeneratorWord(c);
    if w == LowBits(0x4003, 16) {
      SixteenBits(0x4003);
      LowBitsInjective(c, 0x4003, 16);
    }
  }

  /** Seventeen bits empty the register only if all are zero or they spell the generator. */
  lemma SeventeenBits(w: seq<bool>)
    requires |w| == 17
    ensures FeedBits(0, w) == 0 <==> w == GeneratorBits() || forall k | 0 <= k < 17 :: !w[k]
  {
    hide Feed;
    var v := w[..16];
    assert w == v + [w[16]];
    FeedEmpties(FeedBits(0, v), w[16]);
    SixteenBitsLeaveOne(v);
    if FeedBits(0, v) == 0 {
      ShortStringZero(v);
      assert forall k | 0 <= k < 16 :: w[k] == v[k];
    }
    if forall k | 0 <= k < 17 :: !w[k] {
      FeedZeros(0, v);
      AdvanceZero(16);
    }
  }

  /**
   One bit more and detection stops: among the errors confined to seventeen consecutive line
   bits, exactly the one that spells the generator goes unnoticed.
   */
  lemma SeventeenBitBurstUndetectedIff(f: seq<bv8>, g: seq<bv8>, i: nat)
    requires |f| == |g| && f != g && Intact(f) && i + 17 <= 8 * |f|
    requires forall k | 0 <= k < 8 * |f| && BitErrors(f, g)[k] :: i <= k < i + 17
    ensures Intact(g) <==> BitErrors(f, g)[i..i + 17] == GeneratorBits()
  {
    hide Feed, Advance, Register;
    var e := BitErrors(f, g);
    var w := e[i..i + 17];
    UndetectedIff(f, g);
    WindowDecides(e, i, i + 17);
    AdvanceZero(|e| - i - 17);
    if Intact(g) {
      AdvanceInjective(FeedBits(0, w), 0, |e| - i - 17);
    }
    SeventeenBits(w);
    if forall k | 0 <= k < 17 :: !w[k] {
      OutsideAndInside(e, i, i + 17);
      NoErrors(f, g);
    }
  }

  // ---------------------------------------------------------------- odd numbers of errors

  function LowBit(r: bv16): bool {
    r & 1 == 1
  }

  function Half(r: bv16): bv16 {
    r >> 1
  }

  function OddBits(r: bv16, n: nat): bool
    decreases n
  {
    if n == 0 then false else LowBit(r) != OddBits(Half(r), n - 1)
  }

  /** Whether a register holds an odd number of ones. */
  function Odd(r: bv16): bool {
    OddBits(r, 16)
  }

  lemma HalfIsXor(x: bv16, y: bv16, z: bv16)
    requires IsXor(x, y, z)
    ensures IsXor(Half(x), Half(y), Half(z))
    ensures LowBit(x) == (LowBit(y) != LowBit(z))
  {
  }

  lemma {:induction false} OddIsXor(x: bv16, y: bv16, z: bv16, n: nat)
    requires IsXor(x, y, z)
    ensures OddBits(x, n) == (OddBits(y, n) != OddBits(z, n))
    decreases n
  {
    hide IsXor, Half, LowBit;
    if n > 0 {
      HalfIsXor(x, y, z);
      OddIsXor(Half(x), Half(y), Half(z), n - 1);
    }
  }

  lemma {:induction false} OddBitsBeyond(c: bv16, n: nat)
    requires DropBits(c, n) == 0
    ensures OddBits(c, n + 1) == OddBits(c, n)
    decreases n
  {
    if n > 0 {
      OddBitsBeyond(Half(c), n - 1);
    }
  }

  lemma HalfHasFifteenBits(r: bv16)
    ensures DropBits(Half(r), 15) == 0
  {
    DropFive(Half(r), 10);
    DropFive(Half(r) >> 5, 5);
    DropFive((Half(r) >> 5) >> 5, 0);
  }

  /** What falls out of a shift comes back as the generator. */
  function FedBack(r: bv16): bv16 {
    if LowBit(r) then 0xA001 else 0
  }

  lemma XorNothing(a: bv16)
    ensures IsXor(a, a, 0)
  {
  }

  lemma ShiftSplits(r: bv16)
    ensures IsXor(Shift(r), Half(r), FedBack(r))
  {
    hide Shift;
    LowBitCases(r);
    if LowBit(r) {
      ShiftLosesOne(r);
    } else {
      ShiftLosesZero(r);
      XorNothing(Half(r));
    }
  }

  lemma {:induction false} OddZero(n: nat)
    ensures !OddBits(0, n)
  {
    if n > 0 {
      OddZero(n - 1);
    }
  }

  lemma OddGenerator()
    ensures Odd(0xA001)
  {
    assert OddBits(0xA001, 16) == (true != OddBits(0x5000, 15));
    assert OddBits(0x5000, 15) == OddBits(0x0500, 11);
    assert OddBits(0x0500, 11) == OddBits(0x0050, 7);
    assert OddBits(0x0050, 7) == OddBits(0x0005, 3);
    OddZero(0);
  }

  /** The generator has three ones, so a step that loses a one restores the parity. */
  lemma OddShift(r: bv16)
    ensures Odd(Shift(r)) == Odd(r)
  {
    hide IsXor, Shift, Half, LowBit;
    ShiftSplits(r);
    OddIsXor(Shift(r), Half(r), FedBack(r), 16);
    OddGenerator();
    OddZero(16);
    HalfHasFifteenBits(r);
    OddBitsBeyond(Half(r), 15);
  }

  lemma AddedBit(r: bv16, b: bool)
    ensures IsXor(r ^ BitValue(b), r, BitValue(b))
  {
  }

  lemma OddBitValue(b: bool)
    ensures Odd(BitValue(b)) == b
  {
    OddOne();
    OddZero(16);
  }

  lemma OddOfSum(x: bv16, r: bv16, c: bv16)
    requires IsXor(x, r, c)
    ensures Odd(Shift(x)) == (Odd(r) != Odd(c))
  {
    hide IsXor, OddBits, Shift;
    OddShift(x);
    OddIsXor(x, r, c, 16);
  }

  lemma OddFeed(r: bv16, b: bool)
    ensures Odd(Feed(r, b)) == (Odd(r) != b)
  {
    hide IsXor, Odd, Shift, BitValue;
    AddedBit(r, b);
    OddOfSum(r ^ BitValue(b), r, BitValue(b));
    OddBitValue(b);
  }

  lemma OddOne()
    ensures Odd(1)
  {
    OddZero(15);
  }

  /** The parity of the register is the parity of all bits fed so far. */
  lemma {:induction false} RegisterParity(r: bv16, e: seq<bool>)
    ensures Odd(FeedBits(r, e)) == (Odd(r) != (Ones(e) % 2 == 1))
  {
    if |e| > 0 {
      RegisterParity(r, e[..|e| - 1]);
      OddFeed(FeedBits(r, e[..|e| - 1]), e[|e| - 1]);
    }
  }

  lemma InitialParity()
    ensures !Odd(INITIAL) && !Odd(0)
  {
    OddZero(16);
    assert OddBits(0x000F, 4) == OddBits(0x0003, 2);
    assert OddBits(0x00FF, 8) == OddBits(0x000F, 4);
    assert OddBits(0x0FFF, 12) == OddBits(0x00FF, 8);
    assert OddBits(0xFFFF, 16) == OddBits(0x0FFF, 12);
  }

  /** Every intact frame carries an even number of one bits. */
  lemma IntactFramesAreEven(f: seq<bv8>)
    requires Intact(f)
    ensures Ones(Bits(f)) % 2 == 0
  {
    RegisterIsBits(INITIAL, f);
    RegisterParity(INITIAL, Bits(f));
    InitialParity();
  }

  /** Any odd number of bit errors is detected, in frames of every length. */
  lemma OddErrorsDetected(f: seq<bv8>, g: seq<bv8>)
    requires |f| == |g| && Intact(f)
    requires Ones(BitErrors(f, g)) % 2 == 1
    ensures !Intact(g)
  {
    UndetectedIff(f, g);
    RegisterParity(0, BitErrors(f, g));
    InitialParity();
  }

  // ---------------------------------------------------------------- two errors

  ghost predicate OnlyErrors(e: seq<bool>, i: nat, j: nat) {
    i < j < |e| && forall k | 0 <= k < |e| :: e[k] <==> k == i || k == j
  }

  lemma FeedOneThenZeros(r: bv16, e: seq<bool>)
    requires |e| > 0 && e[0] && forall k | 1 <= k < |e| :: !e[k]
    ensures FeedBits(r, e) == Advance(r ^ 1, |e|)
  {
    FeedBitsFirst(r, true, e[1..]);
    assert e == [true] + e[1..];
    FeedZeros(Feed(r, true), e[1..]);
    AdvanceFirst(r ^ 1, |e| - 1);
  }

  lemma OneErrorRegister(e: seq<bool>, i: nat)
    requires i < |e| && forall k | 0 <= k < |e| :: e[k] <==> k == i
    ensures FeedBits(0, e) == Advance(1, |e| - i)
  {
    FeedZeros(0, e[..i]);
    AdvanceZero(i);
    FeedBitsConcat(0, e[..i], e[i..]);
    assert e == e[..i] + e[i..];
    FeedOneThenZeros(0, e[i..]);
    XorZero(1);
  }

  lemma TwoErrorRegister(e: seq<bool>, i: nat, j: nat)
    requires OnlyErrors(e, i, j)
    ensures FeedBits(0, e) == Advance(Advance(1, j - i) ^ 1, |e| - j)
  {
    hide Advance, Feed;
    assert e == e[..j] + e[j..];
    OneErrorRegister(e[..j], i);
    FeedBitsConcat(0, e[..j], e[j..]);
    FeedOneThenZeros(Advance(1, j - i), e[j..]);
  }

  /**
   Double errors: flipping exactly the line bits i and j of an intact frame goes unnoticed if
   and only if their distance is a multiple of 32767.
   */
  lemma DoubleErrorUndetectedIff(f: seq<bv8>, g: seq<bv8>, i: nat, j: nat)
    requires |f| == |g| && Intact(f)
    requires OnlyErrors(BitErrors(f, g), i, j)
    ensures Intact(g) <==> (j - i) % PERIOD == 0
  {
    hide Advance, Register, BitErrors;
    var e := BitErrors(f, g);
    UndetectedIff(f, g);
    TwoErrorRegister(e, i, j);
    XorSelf(Advance(1, j - i), 1);
    AdvanceZero(|e| - j);
    if Intact(g) {
      AdvanceInjective(Advance(1, j - i) ^ 1, 0, |e| - j);
    }
    LastBitPeriod(j - i);
  }

  // ---------------------------------------------------------------- minimum distance

  lemma {:induction false} NoOnes(e: seq<bool>)
    requires Ones(e) == 0
    ensures forall k | 0 <= k < |e| :: !e[k]
  {
    if |e| > 0 {
      NoOnes(e[..|e| - 1]);
      assert forall k | 0 <= k < |e| - 1 :: e[k] == e[..|e| - 1][k];
    }
  }

  lemma {:induction false} SingleOne(e: seq<bool>) returns (i: nat)
    requires Ones(e) == 1
    ensures i < |e| && forall k | 0 <= k < |e| :: e[k] <==> k == i
  {
    var n := |e| - 1;
    assert forall k | 0 <= k < n :: e[k] == e[..n][k];
    if e[n] {
      NoOnes(e[..n]);
      i := n;
    } else {
      i := SingleOne(e[..n]);
    }
  }

  lemma {:induction false} TwoOnes(e: seq<bool>) returns (i: nat, j: nat)
    requires Ones(e) == 2
    ensures OnlyErrors(e, i, j)
  {
    var n := |e| - 1;
    assert forall k | 0 <= k < n :: e[k] == e[..n][k];
    if e[n] {
      i := SingleOne(e[..n]);
      j := n;
    } else {
      i, j := TwoOnes(e[..n]);
    }
  }

  lemma SameIffNoOnes(f: seq<bv8>, g: seq<bv8>)
    requires |f| == |g|
    ensures f == g <==> Ones(BitErrors(f, g)) == 0
  {
    var e := BitErrors(f, g);
    if Ones(e) == 0 {
      NoOnes(e);
      NoErrors(f, g);
    }
    if f == g {
      AllFalse(e);
    }
  }

  lemma {:induction false} AllFalse(e: seq<bool>)
    requires forall k | 0 <= k < |e| :: !e[k]
    ensures Ones(e) == 0
  {
    if |e| > 0 {
      AllFalse(e[..|e| - 1]);
    }
  }

  /** The least number of bits in which intact frames of `n` bytes differ. */
  function LeastDistance(n: nat): nat {
    if n <= 4095 then 4 else 2
  }

  /**
   Two different intact frames of equal length, up to 4095 bytes, differ in at least four
   bits: one, two and three bit errors are always detected.  In longer frames that is so for
   single errors only.
   */
  lemma MinimumDistance(f: seq<bv8>, g: seq<bv8>)
    requires |f| == |g| && f != g
    requires Intact(f) && Intact(g)
    ensures Ones(BitErrors(f, g)) >= LeastDistance(|f|)
  {
    var e := BitErrors(f, g);
    SameIffNoOnes(f, g);
    if Ones(e) % 2 == 1 {
      OddErrorsDetected(f, g);
    } else if Ones(e) == 2 && |f| <= 4095 {
      var i, j := TwoOnes(e);
      DoubleErrorUndetectedIff(f, g, i, j);
    }
  }

  // ---------------------------------------------------------------- error patterns

  lemma FirstLowBit(c: bv16, n: nat)
    requires n > 0
    ensures LowBits(c, n) == [LowBit(c)] + LowBits(Half(c), n - 1)
  {
  }

  lemma {:induction false} LowBitsIsXor(x: bv16, y: bv16, z: bv16, n: nat)
    requires IsXor(x, y, z)
    ensures LowBits(x, n) == Difference(LowBits(y, n), LowBits(z, n))
    decreases n
  {
    hide IsXor, LowBits, Half, LowBit;
    if n > 0 {
      FirstLowBit(x, n);
      FirstLowBit(y, n);
      FirstLowBit(z, n);
      HalfIsXor(x, y, z);
      LowBitsIsXor(Half(x), Half(y), Half(z), n - 1);
    }
  }

  lemma BytesAreXor(a: bv8, e: bv8)
    ensures IsXor(e as bv16, a as bv16, XorByte(a, e) as bv16)
  {
  }

  lemma ByteErrors(a: bv8, e: bv8)
    ensures Difference(ByteBits(a), ByteBits(XorByte(a, e))) == ByteBits(e)
  {
    hide IsXor, LowBits, XorByte;
    BytesAreXor(a, e);
    LowBitsIsXor(e as bv16, a as bv16, XorByte(a, e) as bv16, 8);
  }

  lemma MoreErrors(m: seq<bv8>, a: bv8, n: seq<bv8>, b: bv8, e: seq<bv8>, c: bv8)
    requires |m| == |n| == |e| && BitErrors(m, n) == Bits(e) && b == XorByte(a, c)
    ensures BitErrors(m + [a], n + [b]) == Bits(e + [c])
  {
    hide ByteBits, XorByte;
    assert (m + [a])[..|m|] == m && (n + [b])[..|n|] == n && (e + [c])[..|e|] == e;
    ByteErrors(a, c);
    DifferenceConcat(Bits(m), ByteBits(a), Bits(n), ByteBits(b));
  }

  lemma XorLast(f: seq<bv8>, e: seq<bv8>, n: nat)
    requires |f| == |e| == n + 1
    ensures XorBytes(f, e) == XorBytes(f[..n], e[..n]) + [XorByte(f[n], e[n])]
  {
    hide XorByte;
  }

  lemma Last(m: seq<bv8>, n: nat)
    requires |m| == n + 1
    ensures m == m[..n] + [m[n]]
  {
  }

  /** Adding a pattern of bytes to a frame makes errors in exactly the bits of the pattern. */
  lemma {:induction false} ErrorsArePattern(f: seq<bv8>, e: seq<bv8>)
    requires |f| == |e|
    ensures BitErrors(f, XorBytes(f, e)) == Bits(e)
  {
    hide BitErrors, XorByte, XorBytes, Bits;
    if |f| == 0 {
      NoFrameNoErrors(f, XorBytes(f, e), e);
    } else {
      var n := |f| - 1;
      Last(f, n);
      Last(e, n);
      XorLast(f, e, n);
      ErrorsArePattern(f[..n], e[..n]);
      MoreErrors(f[..n], f[n], XorBytes(f[..n], e[..n]), XorByte(f[n], e[n]), e[..n], e[n]);
    }
  }

  lemma NoFrameNoErrors(f: seq<bv8>, g: seq<bv8>, e: seq<bv8>)
    requires |f| == |g| == |e| == 0
    ensures BitErrors(f, g) == Bits(e)
  {
  }

  lemma DifferenceConcat(a: seq<bool>, b: seq<bool>, c: seq<bool>, d: seq<bool>)
    requires |a| == |c| && |b| == |d|
    ensures Difference(a + b, c + d) == Difference(a, c) + Difference(b, d)
  {
  }

  lemma {:induction false} OnesConcat(u: seq<bool>, v: seq<bool>)
    ensures Ones(u + v) == Ones(u) + Ones(v)
  {
    if |v| == 0 {
      assert u + v == u;
    } else {
      assert (u + v)[..|u + v| - 1] == u + v[..|v| - 1];
      OnesConcat(u, v[..|v| - 1]);
    }
  }
}
