/**
 The MODBUS checksum as the standard defines it: a 16-bit register divided bit by bit
 by the reflected generator 0xA001 (MODBUS over Serial Line V1.02, section 2.5.1.2 and
 Appendix B).  Everything the table-driven programs compute is measured against this.

 `Shift` is one division step, `Advance` repeats it, `FeedByte` and `Register` take whole
 bytes and messages, and `FeedBits` takes single bits in the order they leave the line
 (least significant bit of each byte first).
 */
module BitSerial {
  const INITIAL: bv16 := 0xFFFF

  /** One division step.  The product is the generator 0xA001 when a 1 falls out and 0 otherwise. */
  function Shift(r: bv16): bv16 {
    (r >> 1) ^ ((r & 1) * 0xA001)
  }

  /** `n` division steps without input. */
  function Advance(r: bv16, n: nat): bv16 {
    if n == 0 then r else Shift(Advance(r, n - 1))
  }

  function LowHalf(x: bv16): bv16 {
    x & 0xFF
  }

  function HighHalf(x: bv16): bv16 {
    x >> 8
  }

  /** A byte is added into the low half of the register. */
  function AddByte(r: bv16, b: bv8): bv16 {
    r ^ (b as bv16)
  }

  function FeedByte(r: bv16, b: bv8): bv16 {
    Advance(AddByte(r, b), 8)
  }

  /** The register after the whole message `m`, starting from `r`. */
  function Register(r: bv16, m: seq<bv8>): bv16 {
    if |m| == 0 then r else FeedByte(Register(r, m[..|m| - 1]), m[|m| - 1])
  }

  function BitValue(b: bool): bv16 {
    if b then 1 else 0
  }

  function Feed(r: bv16, b: bool): bv16 {
    Shift(r ^ BitValue(b))
  }

  function FeedBits(r: bv16, e: seq<bool>): bv16 {
    if |e| == 0 then r else Feed(FeedBits(r, e[..|e| - 1]), e[|e| - 1])
  }

  /** The low `n` bits of a word, least significant first. */
  function LowBits(c: bv16, n: nat): (e: seq<bool>)
    ensures |e| == n
  {
    if n == 0 then [] else [c & 1 == 1] + LowBits(c >> 1, n - 1)
  }

  /** What is left of a word once its low `n` bits are gone. */
  function DropBits(c: bv16, n: nat): bv16
    decreases n
  {
    if n == 0 then c else DropBits(c >> 1, n - 1)
  }

  /** The bits of one byte in transmission order. */
  function ByteBits(b: bv8): (e: seq<bool>)
    ensures |e| == 8
  {
    LowBits(b as bv16, 8)
  }

  function Bits(m: seq<bv8>): (e: seq<bool>)
    ensures |e| == 8 * |m|
  {
    if |m| == 0 then [] else Bits(m[..|m| - 1]) + ByteBits(m[|m| - 1])
  }

  // ---------------------------------------------------------------- one step

  lemma ShiftLosesOne(r: bv16)
    requires r & 1 == 1
    ensures Shift(r) == (r >> 1) ^ 0xA001
  {
  }

  lemma ShiftLosesZero(r: bv16)
    requires r & 1 == 0
    ensures Shift(r) == r >> 1
  {
  }

  lemma LowBitCases(r: bv16)
    ensures r & 1 == 0 || r & 1 == 1
  {
  }

  lemma ShiftIsDivisionStep(r: bv16)
    ensures Shift(r) == if r & 1 == 1 then (r >> 1) ^ 0xA001 else r >> 1
  {
    hide Shift;
    LowBitCases(r);
    if r & 1 == 1 {
      ShiftLosesOne(r);
    } else {
      ShiftLosesZero(r);
    }
  }

  /** `x` is the exclusive or of `y` and `z`. */
  predicate IsXor(x: bv16, y: bv16, z: bv16) {
    x == y ^ z
  }

  lemma ShiftXor(a: bv16, b: bv16)
    ensures Shift(a ^ b) == Shift(a) ^ Shift(b)
  {
  }

  lemma ShiftIsXor(x: bv16, y: bv16, z: bv16)
    requires IsXor(x, y, z)
    ensures IsXor(Shift(x), Shift(y), Shift(z))
  {
    hide Shift;
    ShiftXor(y, z);
  }

  lemma ShiftInjective(a: bv16, b: bv16)
    requires Shift(a) == Shift(b)
    ensures a == b
  {
  }

  /** Feeding is linear over exclusive or, in the register and in the bit together. */
  lemma FeedXor(r: bv16, s: bv16, a: bool, b: bool)
    ensures Feed(r ^ s, a != b) == Feed(r, a) ^ Feed(s, b)
  {
    FeedXorWords(r, s, BitValue(a), BitValue(b));
  }

  lemma FeedXorWords(r: bv16, s: bv16, x: bv16, y: bv16)
    ensures Shift((r ^ s) ^ (x ^ y)) == Shift(r ^ x) ^ Shift(s ^ y)
  {
  }

  // ---------------------------------------------------------------- many steps

  lemma {:induction false} AdvanceIsXor(x: bv16, y: bv16, z: bv16, n: nat)
    requires IsXor(x, y, z)
    ensures IsXor(Advance(x, n), Advance(y, n), Advance(z, n))
  {
    hide Shift, IsXor;
    if n > 0 {
      AdvanceIsXor(x, y, z, n - 1);
      ShiftIsXor(Advance(x, n - 1), Advance(y, n - 1), Advance(z, n - 1));
    }
  }

  lemma {:induction false} AdvanceZero(n: nat)
    ensures Advance(0, n) == 0
  {
    if n > 0 {
      AdvanceZero(n - 1);
    }
  }

  lemma {:induction false} AdvanceInjective(a: bv16, b: bv16, n: nat)
    requires Advance(a, n) == Advance(b, n)
    ensures a == b
  {
    if n > 0 {
      ShiftInjective(Advance(a, n - 1), Advance(b, n - 1));
      AdvanceInjective(a, b, n - 1);
    }
  }

  lemma {:induction false} AdvanceAdd(r: bv16, m: nat, n: nat)
    ensures Advance(Advance(r, m), n) == Advance(r, m + n)
  {
    if n > 0 {
      AdvanceAdd(r, m, n - 1);
    }
  }

  /** Feeding a byte is a bijection of the register: `r` can be recovered from the result. */
  lemma FeedByteInjective(r: bv16, s: bv16, b: bv8)
    requires FeedByte(r, b) == FeedByte(s, b)
    ensures r == s
  {
    AdvanceAfterXorInjective(r, s, b as bv16, 8);
  }

  lemma AdvanceAfterXorInjective(r: bv16, s: bv16, x: bv16, n: nat)
    requires Advance(r ^ x, n) == Advance(s ^ x, n)
    ensures r == s
  {
    AdvanceInjective(r ^ x, s ^ x, n);
    XorCancel(r, s, x);
  }

  lemma XorCancel(r: bv16, s: bv16, x: bv16)
    requires r ^ x == s ^ x
    ensures r == s
  {
    assert r == (r ^ x) ^ x;
    assert s == (s ^ x) ^ x;
  }

  // ---------------------------------------------------------------- concatenation

  lemma {:induction false} FeedBitsConcat(r: bv16, u: seq<bool>, v: seq<bool>)
    ensures FeedBits(r, u + v) == FeedBits(FeedBits(r, u), v)
  {
    if |v| == 0 {
      assert u + v == u;
    } else {
      var v' := v[..|v| - 1];
      assert (u + v)[..|u + v| - 1] == u + v';
      FeedBitsConcat(r, u, v');
    }
  }

  lemma FeedBitsFirst(r: bv16, b: bool, v: seq<bool>)
    ensures FeedBits(r, [b] + v) == FeedBits(Feed(r, b), v)
  {
    FeedBitsConcat(r, [b], v);
    assert [b][..0] == [];
    assert FeedBits(r, [b]) == Feed(FeedBits(r, [b][..0]), b);
  }

  // ---------------------------------------------------------------- words fed bit by bit

  lemma {:induction false} AdvanceFirst(r: bv16, n: nat)
    ensures Advance(r, n + 1) == Advance(Shift(r), n)
  {
    if n > 0 {
      AdvanceFirst(r, n - 1);
    }
  }

  lemma ShiftSplitsLowBit(r: bv16, c: bv16)
    ensures Shift(r ^ (c & 1)) ^ (c >> 1) == Shift(r ^ c)
  {
  }

  lemma LowBitValue(c: bv16)
    ensures BitValue(c & 1 == 1) == c & 1
  {
  }

  lemma FeedLowBit(r: bv16, c: bv16)
    ensures Feed(r, c & 1 == 1) ^ (c >> 1) == Shift(r ^ c)
  {
    LowBitValue(c);
    ShiftSplitsLowBit(r, c);
  }

  /** Feeding an `n`-bit word bit by bit equals preloading it and shifting `n` times. */
  lemma {:induction false} Preload(r: bv16, c: bv16, n: nat)
    requires DropBits(c, n) == 0
    ensures FeedBits(r, LowBits(c, n)) == Advance(r ^ c, n)
    decreases n
  {
    if n > 0 {
      Preload(Feed(r, c & 1 == 1), c >> 1, n - 1);
      FeedBitsFirst(r, c & 1 == 1, LowBits(c >> 1, n - 1));
      FeedLowBit(r, c);
      AdvanceFirst(r ^ c, n - 1);
    }
  }

  lemma {:induction false} DropBitsZero(n: nat)
    ensures DropBits(0, n) == 0
  {
    if n > 0 {
      DropBitsZero(n - 1);
    }
  }

  lemma {:induction false} DropBitsMore(c: bv16, m: nat, n: nat)
    requires m <= n && DropBits(c, m) == 0
    ensures DropBits(c, n) == 0
    decreases m
  {
    if m == 0 {
      DropBitsZero(n);
    } else {
      DropBitsMore(c >> 1, m - 1, n - 1);
    }
  }

  lemma FifteenBits(c: bv16)
    requires DropBits(c, 15) == 0
    ensures c & 0x8000 == 0
  {
    DropFive(c, 10);
    DropFive(c >> 5, 5);
    DropFive((c >> 5) >> 5, 0);
  }

  lemma SixteenBits(c: bv16)
    ensures DropBits(c, 16) == 0
  {
    DropFive(c, 11);
    DropFive(c >> 5, 6);
    DropFive((c >> 5) >> 5, 1);
    assert DropBits(((c >> 5) >> 5) >> 5, 1) == 0;
  }

  lemma DropFive(c: bv16, n: nat)
    ensures DropBits(c, n + 5) == DropBits(c >> 5, n)
  {
    assert DropBits(c, n + 5) == DropBits(c >> 1, n + 4);
    assert DropBits(c >> 1, n + 4) == DropBits(c >> 2, n + 3);
    assert DropBits(c >> 2, n + 3) == DropBits(c >> 3, n + 2);
    assert DropBits(c >> 3, n + 2) == DropBits(c >> 4, n + 1);
  }

  lemma PushBit(p: bv16, b: bool)
    requires p & 0x8000 == 0
    ensures ((p << 1) | BitValue(b)) >> 1 == p
    ensures (((p << 1) | BitValue(b)) & 1 == 1) == b
  {
  }

  /** Up to sixteen bits are the low bits of some word. */
  lemma {:induction false} WordOfBits(w: seq<bool>) returns (c: bv16)
    requires |w| <= 16
    ensures DropBits(c, |w|) == 0 && LowBits(c, |w|) == w
  {
    if |w| == 0 {
      c := 0;
    } else {
      var p := WordOfBits(w[1..]);
      PushWord(p, w[0], |w| - 1);
      c := (p << 1) | BitValue(w[0]);
      assert w == [w[0]] + w[1..];
    }
  }

  lemma PushWord(p: bv16, b: bool, n: nat)
    requires n < 16 && DropBits(p, n) == 0
    ensures DropBits((p << 1) | BitValue(b), n + 1) == 0
    ensures LowBits((p << 1) | BitValue(b), n + 1) == [b] + LowBits(p, n)
  {
    DropBitsMore(p, n, 15);
    FifteenBits(p);
    PushBit(p, b);
  }

  lemma ByteHasEightBits(b: bv8)
    ensures DropBits(b as bv16, 8) == 0
  {
  }

  lemma SameHalves(c: bv16, d: bv16)
    requires c >> 1 == d >> 1
    requires (c & 1 == 1) == (d & 1 == 1)
    ensures c == d
  {
  }

  lemma {:induction false} LowBitsInjective(c: bv16, d: bv16, n: nat)
    requires DropBits(c, n) == 0 && DropBits(d, n) == 0
    requires LowBits(c, n) == LowBits(d, n)
    ensures c == d
    decreases n
  {
    if n > 0 {
      assert LowBits(c, n)[0] == LowBits(d, n)[0];
      assert LowBits(c, n)[1..] == LowBits(d, n)[1..];
      LowBitsInjective(c >> 1, d >> 1, n - 1);
      SameHalves(c, d);
    }
  }

  lemma ByteBitsInjective(a: bv8, b: bv8)
    requires ByteBits(a) == ByteBits(b)
    ensures a == b
  {
    ByteHasEightBits(a);
    ByteHasEightBits(b);
    LowBitsInjective(a as bv16, b as bv16, 8);
    assert a as bv16 == b as bv16;
  }

  lemma SameParts(a: seq<bool>, b: seq<bool>, c: seq<bool>, d: seq<bool>)
    requires |a| == |c| && a + b == c + d
    ensures a == c && b == d
  {
    assert a == (a + b)[..|a|] && b == (a + b)[|a|..];
    assert c == (c + d)[..|c|] && d == (c + d)[|c|..];
  }

  /** Different messages of equal length have different bits. */
  lemma {:induction false} BitsInjective(m: seq<bv8>, n: seq<bv8>)
    requires |m| == |n| && Bits(m) == Bits(n)
    ensures m == n
  {
    hide ByteBits;
    if |m| > 0 {
      var k := |m| - 1;
      SameParts(Bits(m[..k]), ByteBits(m[k]), Bits(n[..k]), ByteBits(n[k]));
      BitsInjective(m[..k], n[..k]);
      ByteBitsInjective(m[k], n[k]);
      assert m == m[..k] + [m[k]] && n == n[..k] + [n[k]];
    }
  }

  // ---------------------------------------------------------------- bytes and bits agree

  lemma FeedByteIsBits(r: bv16, b: bv8)
    ensures FeedByte(r, b) == FeedBits(r, ByteBits(b))
  {
    Preload(r, b as bv16, 8);
    ByteHasEightBits(b);
  }

  /** Byte-wise and bit-wise division agree on every message. */
  lemma {:induction false} RegisterIsBits(r: bv16, m: seq<bv8>)
    ensures Register(r, m) == FeedBits(r, Bits(m))
  {
    if |m| > 0 {
      var m' := m[..|m| - 1];
      RegisterIsBits(r, m');
      FeedByteIsBits(Register(r, m'), m[|m| - 1]);
      FeedBitsConcat(r, Bits(m'), ByteBits(m[|m| - 1]));
    }
  }
}
