/**
 The three checksum loops of the gateway, each proved to compute the bit-serial register,
 and the meaning of the trailer test that both ends of the Modbus link apply.
 */
module Crc16 {
  import opened BitSerial
  import opened Crc16Tables
  import opened ErrorDetection

  function LowByte(r: bv16): bv8 {
    (r & 0xFF) as bv8
  }

  function HighByte(r: bv16): bv8 {
    (r >> 8) as bv8
  }

  /** The 16-bit value of two bytes in memory on a little-endian host. */
  function LittleEndian(first: bv8, second: bv8): bv16 {
    ((second as bv16) << 8) | (first as bv16)
  }

  /** The 16-bit value of two bytes on the wire. */
  function BigEndian(first: bv8, second: bv8): bv16 {
    LittleEndian(second, first)
  }

  // ---------------------------------------------------------------- one table step

  lemma HighByteMovesDown(x: bv16)
    ensures ShiftEight(x & 0xFF00) == HighHalf(x)
  {
  }

  lemma SplitHalves(x: bv16)
    ensures IsXor(x, x & 0xFF00, LowHalf(x))
  {
  }

  lemma AdvanceEight(x: bv16)
    ensures IsXor(Advance(x, 8), HighHalf(x), Advance(LowHalf(x), 8))
  {
    hide ShiftEight, Advance, HighHalf, LowHalf, IsXor;
    SplitHalves(x);
    AdvanceIsXor(x, x & 0xFF00, LowHalf(x), 8);
    ShiftEightIsAdvance(x & 0xFF00);
    HighByteMovesDown(x);
  }

  lemma LowByteOfXor(r: bv16, b: bv8)
    ensures LowByte(AddByte(r, b)) as bv16 == LowHalf(AddByte(r, b))
    ensures HighHalf(AddByte(r, b)) == HighHalf(r)
  {
  }

  /** One table step is one byte of bit-serial division. */
  lemma TableStep(r: bv16, b: bv8)
    ensures IsXor(FeedByte(r, b), HighHalf(r), Crc16Tab(LowByte(AddByte(r, b))))
  {
    hide Crc16Tab, Advance, LowByte, IsXor, AddByte, LowHalf, HighHalf;
    LowByteOfXor(r, b);
    AdvanceEight(AddByte(r, b));
    TableEntry(LowByte(AddByte(r, b)));
  }

  /** The body of the 16-bit table loop. */
  function NextCrc(crc: bv16, b: bv8): bv16 {
    HighHalf(crc) ^ Crc16Tab(LowByte(AddByte(crc, b)))
  }

  lemma NextCrcIsFeedByte(r: bv16, b: bv8)
    ensures NextCrc(r, b) == FeedByte(r, b)
  {
    hide Crc16Tab, FeedByte;
    TableStep(r, b);
  }

  /** The split-table loop looks up the low byte of the register combined with the input. */
  function IndexOf(hi: bv8, b: bv8): bv8 {
    hi ^ b
  }

  function NextHi(lo: bv8, i: bv8): bv8 {
    lo ^ AuchCrcHi(i)
  }

  lemma IndexByte(r: bv16, b: bv8)
    ensures IndexOf(LowByte(r), b) as bv16 == LowHalf(AddByte(r, b))
    ensures HighHalf(AddByte(r, b)) == HighHalf(r)
  {
  }

  lemma SplitResult(a: bv16, r: bv16, t: bv16, i: bv8)
    requires IsXor(a, HighHalf(r), t)
    requires AuchCrcHi(i) as bv16 == LowHalf(t) && AuchCrcLo(i) as bv16 == HighHalf(t)
    ensures LowByte(a) == NextHi(HighByte(r), i) && HighByte(a) == AuchCrcLo(i)
  {
    hide AuchCrcHi, AuchCrcLo;
  }

  /** The split-table step computes the low and the high byte of the same register. */
  lemma SplitStep(r: bv16, b: bv8, i: bv8)
    requires i == IndexOf(LowByte(r), b)
    ensures LowByte(FeedByte(r, b)) == NextHi(HighByte(r), i)
    ensures HighByte(FeedByte(r, b)) == AuchCrcLo(i)
  {
    hide AuchCrcHi, AuchCrcLo, Advance, IsXor, LowByte, HighByte, IndexOf, NextHi, AddByte, LowHalf, HighHalf;
    AdvanceEight(AddByte(r, b));
    SplitEntries(i);
    IndexByte(r, b);
    SplitResult(FeedByte(r, b), r, Advance(i as bv16, 8), i);
  }

  // ---------------------------------------------------------------- the three loops

  lemma RegisterStep(m: seq<bv8>, n: seq<bv8>, i: nat)
    requires i < |n| && m == n[..i]
    ensures Register(INITIAL, n[..i + 1]) == FeedByte(Register(INITIAL, m), n[i])
  {
    assert n[..i + 1][..i] == m;
  }

  /** The byte order in which the register goes on the wire, read as one number. */
  function Swapped(r: bv16): bv16 {
    BigEndian(LowByte(r), HighByte(r))
  }

  /** The swapped result is the pair of split-table results: high byte `CRC16_hi`, low byte `CRC16_lo`. */
  lemma SwappedIsBothBytes(r: bv16)
    ensures HighByte(Swapped(r)) == LowByte(r) && LowByte(Swapped(r)) == HighByte(r)
  {
  }

  lemma SwappedStart()
    ensures Swapped(0xFFFF) == 0xFFFF
  {
  }

  lemma SwapExpression(crc: bv16)
    ensures ((crc >> 8) & 0xFF) | ((crc << 8) & 0xFF00) == Swapped(crc)
  {
  }

  /** crc16.c: the 16-bit table loop, whose result is returned with its bytes swapped. */
  method IsCrc16(buf: array<bv8>, len: nat) returns (ret: bv16)
    requires len <= buf.Length
    ensures ret == Swapped(Register(INITIAL, buf[..len]))
    ensures len == 0 ==> ret == 0xFFFF
  {
    hide FeedByte, Swapped, NextCrc;
    SwappedStart();
    var crc: bv16 := 0xFFFF;
    var i := 0;
    while i < len
      invariant 0 <= i <= len
      invariant crc == Register(INITIAL, buf[..i])
    {
      NextCrcIsFeedByte(crc, buf[i]);
      RegisterStep(buf[..i], buf[..len], i);
      assert buf[..len][..i + 1] == buf[..i + 1];
      crc := NextCrc(crc, buf[i]);
      i := i + 1;
    }
    SwapExpression(crc);
    ret := ((crc >> 8) & 0xFF) | ((crc << 8) & 0xFF00);
  }

  /**
   The loop that `CRC16_hi` and `CRC16_lo` share word for word, over the two register bytes;
   the source writes it out twice and returns one byte from each copy.
   */
  method Crc16Bytes(puchMsg: array<bv8>, usDataLen: nat) returns (uchCRCHi: bv8, uchCRCLo: bv8)
    requires usDataLen <= puchMsg.Length && usDataLen < 0x1_0000
    ensures uchCRCHi == LowByte(Register(INITIAL, puchMsg[..usDataLen]))
    ensures uchCRCLo == HighByte(Register(INITIAL, puchMsg[..usDataLen]))
    ensures usDataLen == 0 ==> uchCRCHi == 0xFF && uchCRCLo == 0xFF
  {
    hide FeedByte, NextHi, IndexOf, AuchCrcLo;
    uchCRCHi, uchCRCLo := 0xFF, 0xFF;
    var i := 0;
    while i < usDataLen
      invariant 0 <= i <= usDataLen
      invariant uchCRCHi == LowByte(Register(INITIAL, puchMsg[..i]))
      invariant uchCRCLo == HighByte(Register(INITIAL, puchMsg[..i]))
      invariant i == 0 ==> uchCRCHi == 0xFF && uchCRCLo == 0xFF
    {
      var uIndex := IndexOf(uchCRCHi, puchMsg[i]);
      SplitStep(Register(INITIAL, puchMsg[..i]), puchMsg[i], uIndex);
      RegisterStep(puchMsg[..i], puchMsg[..usDataLen], i);
      assert puchMsg[..usDataLen][..i + 1] == puchMsg[..i + 1];
      uchCRCHi := NextHi(uchCRCLo, uIndex);
      uchCRCLo := AuchCrcLo(uIndex);
      i := i + 1;
    }
  }

  method Crc16Hi(puchMsg: array<bv8>, usDataLen: nat) returns (uchCRCHi: bv8)
    requires usDataLen <= puchMsg.Length && usDataLen < 0x1_0000
    ensures uchCRCHi == LowByte(Register(INITIAL, puchMsg[..usDataLen]))
  {
    var uchCRCLo;
    uchCRCHi, uchCRCLo := Crc16Bytes(puchMsg, usDataLen);
  }

  method Crc16Lo(puchMsg: array<bv8>, usDataLen: nat) returns (uchCRCLo: bv8)
    requires usDataLen <= puchMsg.Length && usDataLen < 0x1_0000
    ensures uchCRCLo == HighByte(Register(INITIAL, puchMsg[..usDataLen]))
  {
    var uchCRCHi;
    uchCRCHi, uchCRCLo := Crc16Bytes(puchMsg, usDataLen);
  }

  // ---------------------------------------------------------------- the trailer

  /** The last two bytes of a frame are the checksum of the rest, low byte first. */
  predicate Accepts(f: seq<bv8>) {
    |f| >= 2 &&
    var r := Register(INITIAL, f[..|f| - 2]);
    f[|f| - 2] == LowByte(r) && f[|f| - 1] == HighByte(r)
  }

  function Raised(h: bv8): bv16 {
    (h as bv16) << 8
  }

  lemma RaisedShiftsDown(h: bv8)
    ensures Advance(Raised(h), 8) == h as bv16
  {
    ShiftEightIsAdvance(Raised(h));
    assert ShiftEight(Raised(h)) == h as bv16;
  }

  lemma TrailerBytes(r: bv16, l: bv8, h: bv8)
    ensures AddByte(r, l) == Raised(h) <==> l == LowByte(r) && h == HighByte(r)
  {
  }

  lemma AddByteZero(a: bv16, b: bv8)
    ensures AddByte(a, b) == 0 <==> a == b as bv16
  {
  }

  /** Feeding two bytes empties the register exactly when they are its own two bytes. */
  lemma TrailerEmptiesRegister(r: bv16, l: bv8, h: bv8)
    ensures FeedByte(FeedByte(r, l), h) == 0 <==> l == LowByte(r) && h == HighByte(r)
  {
    hide Advance, LowByte, HighByte, AddByte, Raised;
    AdvanceZero(8);
    if FeedByte(FeedByte(r, l), h) == 0 {
      AdvanceInjective(AddByte(FeedByte(r, l), h), 0, 8);
    }
    AddByteZero(FeedByte(r, l), h);
    RaisedShiftsDown(h);
    if FeedByte(r, l) == Advance(Raised(h), 8) {
      AdvanceInjective(AddByte(r, l), Raised(h), 8);
    }
    TrailerBytes(r, l, h);
  }

  /** A frame is accepted exactly when dividing all of it leaves nothing. */
  lemma AcceptsIffResidueZero(f: seq<bv8>)
    requires |f| >= 2
    ensures Accepts(f) <==> Intact(f)
  {
    hide FeedByte, LowByte, HighByte;
    var n := |f| - 2;
    TrailerEmptiesRegister(Register(INITIAL, f[..n]), f[n], f[n + 1]);
    RegisterStep(f[..n], f, n);
    RegisterStep(f[..n + 1], f, n + 1);
    assert f[..n + 2] == f;
  }
}
