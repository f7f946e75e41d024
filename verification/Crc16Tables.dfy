/**
 The three literal lookup tables, in rows of sixteen entries: `crc16tab` of crc16.c, and
 `auchCRCHi`, `auchCRCLo` of the two general_modbus headers, which carry the same copies.
 Each entry is shown to be eight division steps of its own index.
 */
module Crc16Tables {
  import opened BitSerial

  const TAB_0: seq<bv16> := [
    0x0000, 0xC0C1, 0xC181, 0x0140, 0xC301, 0x03C0, 0x0280, 0xC241,
    0xC601, 0x06C0, 0x0780, 0xC741, 0x0500, 0xC5C1, 0xC481, 0x0440
  ]
  const TAB_1: seq<bv16> := [
    0xCC01, 0x0CC0, 0x0D80, 0xCD41, 0x0F00, 0xCFC1, 0xCE81, 0x0E40,
    0x0A00, 0xCAC1, 0xCB81, 0x0B40, 0xC901, 0x09C0, 0x0880, 0xC841
  ]
  const TAB_2: seq<bv16> := [
    0xD801, 0x18C0, 0x1980, 0xD941, 0x1B00, 0xDBC1, 0xDA81, 0x1A40,
    0x1E00, 0xDEC1, 0xDF81, 0x1F40, 0xDD01, 0x1DC0, 0x1C80, 0xDC41
  ]
  const TAB_3: seq<bv16> := [
    0x1400, 0xD4C1, 0xD581, 0x1540, 0xD701, 0x17C0, 0x1680, 0xD641,
    0xD201, 0x12C0, 0x1380, 0xD341, 0x1100, 0xD1C1, 0xD081, 0x1040
  ]
  const TAB_4: seq<bv16> := [
    0xF001, 0x30C0, 0x3180, 0xF141, 0x3300, 0xF3C1, 0xF281, 0x3240,
    0x3600, 0xF6C1, 0xF781, 0x3740, 0xF501, 0x35C0, 0x3480, 0xF441
  ]
  const TAB_5: seq<bv16> := [
    0x3C00, 0xFCC1, 0xFD81, 0x3D40, 0xFF01, 0x3FC0, 0x3E80, 0xFE41,
    0xFA01, 0x3AC0, 0x3B80, 0xFB41, 0x3900, 0xF9C1, 0xF881, 0x3840
  ]
  const TAB_6: seq<bv16> := [
    0x2800, 0xE8C1, 0xE981, 0x2940, 0xEB01, 0x2BC0, 0x2A80, 0xEA41,
    0xEE01, 0x2EC0, 0x2F80, 0xEF41, 0x2D00, 0xEDC1, 0xEC81, 0x2C40
  ]
  const TAB_7: seq<bv16> := [
    0xE401, 0x24C0, 0x2580, 0xE541, 0x2700, 0xE7C1, 0xE681, 0x2640,
    0x2200, 0xE2C1, 0xE381, 0x2340, 0xE101, 0x21C0, 0x2080, 0xE041
  ]
  const TAB_8: seq<bv16> := [
    0xA001, 0x60C0, 0x6180, 0xA141, 0x6300, 0xA3C1, 0xA281, 0x6240,
    0x6600, 0xA6C1, 0xA781, 0x6740, 0xA501, 0x65C0, 0x6480, 0xA441
  ]
  const TAB_9: seq<bv16> := [
    0x6C00, 0xACC1, 0xAD81, 0x6D40, 0xAF01, 0x6FC0, 0x6E80, 0xAE41,
    0xAA01, 0x6AC0, 0x6B80, 0xAB41, 0x6900, 0xA9C1, 0xA881, 0x6840
  ]
  const TAB_A: seq<bv16> := [
    0x7800, 0xB8C1, 0xB981, 0x7940, 0xBB01, 0x7BC0, 0x7A80, 0xBA41,
    0xBE01, 0x7EC0, 0x7F80, 0xBF41, 0x7D00, 0xBDC1, 0xBC81, 0x7C40
  ]
  const TAB_B: seq<bv16> := [
    0xB401, 0x74C0, 0x7580, 0xB541, 0x7700, 0xB7C1, 0xB681, 0x7640,
    0x7200, 0xB2C1, 0xB381, 0x7340, 0xB101, 0x71C0, 0x7080, 0xB041
  ]
  const TAB_C: seq<bv16> := [
    0x5000, 0x90C1, 0x9181, 0x5140, 0x9301, 0x53C0, 0x5280, 0x9241,
    0x9601, 0x56C0, 0x5780, 0x9741, 0x5500, 0x95C1, 0x9481, 0x5440
  ]
  const TAB_D: seq<bv16> := [
    0x9C01, 0x5CC0, 0x5D80, 0x9D41, 0x5F00, 0x9FC1, 0x9E81, 0x5E40,
    0x5A00, 0x9AC1, 0x9B81, 0x5B40, 0x9901, 0x59C0, 0x5880, 0x9841
  ]
  const TAB_E: seq<bv16> := [
    0x8801, 0x48C0, 0x4980, 0x8941, 0x4B00, 0x8BC1, 0x8A81, 0x4A40,
    0x4E00, 0x8EC1, 0x8F81, 0x4F40, 0x8D01, 0x4DC0, 0x4C80, 0x8C41
  ]
  const TAB_F: seq<bv16> := [
    0x4400, 0x84C1, 0x8581, 0x4540, 0x8701, 0x47C0, 0x4680, 0x8641,
    0x8201, 0x42C0, 0x4380, 0x8341, 0x4100, 0x81C1, 0x8081, 0x4040
  ]

  const HI_0: seq<bv8> := [
    0x00, 0xC1, 0x81, 0x40, 0x01, 0xC0, 0x80, 0x41, 0x01, 0xC0, 0x80, 0x41, 0x00, 0xC1, 0x81, 0x40
  ]
  const HI_1: seq<bv8> := [
    0x01, 0xC0, 0x80, 0x41, 0x00, 0xC1, 0x81, 0x40, 0x00, 0xC1, 0x81, 0x40, 0x01, 0xC0, 0x80, 0x41
  ]
  const HI_2: seq<bv8> := [
    0x01, 0xC0, 0x80, 0x41, 0x00, 0xC1, 0x81, 0x40, 0x00, 0xC1, 0x81, 0x40, 0x01, 0xC0, 0x80, 0x41
  ]
  const HI_3: seq<bv8> := [
    0x00, 0xC1, 0x81, 0x40, 0x01, 0xC0, 0x80, 0x41, 0x01, 0xC0, 0x80, 0x41, 0x00, 0xC1, 0x81, 0x40
  ]
  const HI_4: seq<bv8> := [
    0x01, 0xC0, 0x80, 0x41, 0x00, 0xC1, 0x81, 0x40, 0x00, 0xC1, 0x81, 0x40, 0x01, 0xC0, 0x80, 0x41
  ]
  const HI_5: seq<bv8> := [
    0x00, 0xC1, 0x81, 0x40, 0x01, 0xC0, 0x80, 0x41, 0x01, 0xC0, 0x80, 0x41, 0x00, 0xC1, 0x81, 0x40
  ]
  const HI_6: seq<bv8> := [
    0x00, 0xC1, 0x81, 0x40, 0x01, 0xC0, 0x80, 0x41, 0x01, 0xC0, 0x80, 0x41, 0x00, 0xC1, 0x81, 0x40
  ]
  const HI_7: seq<bv8> := [
    0x01, 0xC0, 0x80, 0x41, 0x00, 0xC1, 0x81, 0x40, 0x00, 0xC1, 0x81, 0x40, 0x01, 0xC0, 0x80, 0x41
  ]
  const HI_8: seq<bv8> := [
    0x01, 0xC0, 0x80, 0x41, 0x00, 0xC1, 0x81, 0x40, 0x00, 0xC1, 0x81, 0x40, 0x01, 0xC0, 0x80, 0x41
  ]
  const HI_9: seq<bv8> := [
    0x00, 0xC1, 0x81, 0x40, 0x01, 0xC0, 0x80, 0x41, 0x01, 0xC0, 0x80, 0x41, 0x00, 0xC1, 0x81, 0x40
  ]
  const HI_A: seq<bv8> := [
    0x00, 0xC1, 0x81, 0x40, 0x01, 0xC0, 0x80, 0x41, 0x01, 0xC0, 0x80, 0x41, 0x00, 0xC1, 0x81, 0x40
  ]
  const HI_B: seq<bv8> := [
    0x01, 0xC0, 0x80, 0x41, 0x00, 0xC1, 0x81, 0x40, 0x00, 0xC1, 0x81, 0x40, 0x01, 0xC0, 0x80, 0x41
  ]
  const HI_C: seq<bv8> := [
    0x00, 0xC1, 0x81, 0x40, 0x01, 0xC0, 0x80, 0x41, 0x01, 0xC0, 0x80, 0x41, 0x00, 0xC1, 0x81, 0x40
  ]
  const HI_D: seq<bv8> := [
    0x01, 0xC0, 0x80, 0x41, 0x00, 0xC1, 0x81, 0x40, 0x00, 0xC1, 0x81, 0x40, 0x01, 0xC0, 0x80, 0x41
  ]
  const HI_E: seq<bv8> := [
    0x01, 0xC0, 0x80, 0x41, 0x00, 0xC1, 0x81, 0x40, 0x00, 0xC1, 0x81, 0x40, 0x01, 0xC0, 0x80, 0x41
  ]
  const HI_F: seq<bv8> := [
    0x00, 0xC1, 0x81, 0x40, 0x01, 0xC0, 0x80, 0x41, 0x01, 0xC0, 0x80, 0x41, 0x00, 0xC1, 0x81, 0x40
  ]

  const LO_0: seq<bv8> := [
    0x00, 0xC0, 0xC1, 0x01, 0xC3, 0x03, 0x02, 0xC2, 0xC6, 0x06, 0x07, 0xC7, 0x05, 0xC5, 0xC4, 0x04
  ]
  const LO_1: seq<bv8> := [
    0xCC, 0x0C, 0x0D, 0xCD, 0x0F, 0xCF, 0xCE, 0x0E, 0x0A, 0xCA, 0xCB, 0x0B, 0xC9, 0x09, 0x08, 0xC8
  ]
  const LO_2: seq<bv8> := [
    0xD8, 0x18, 0x19, 0xD9, 0x1B, 0xDB, 0xDA, 0x1A, 0x1E, 0xDE, 0xDF, 0x1F, 0xDD, 0x1D, 0x1C, 0xDC
  ]
  const LO_3: seq<bv8> := [
    0x14, 0xD4, 0xD5, 0x15, 0xD7, 0x17, 0x16, 0xD6, 0xD2, 0x12, 0x13, 0xD3, 0x11, 0xD1, 0xD0, 0x10
  ]
  const LO_4: seq<bv8> := [
    0xF0, 0x30, 0x31, 0xF1, 0x33, 0xF3, 0xF2, 0x32, 0x36, 0xF6, 0xF7, 0x37, 0xF5, 0x35, 0x34, 0xF4
  ]
  const LO_5: seq<bv8> := [
    0x3C, 0xFC, 0xFD, 0x3D, 0xFF, 0x3F, 0x3E, 0xFE, 0xFA, 0x3A, 0x3B, 0xFB, 0x39, 0xF9, 0xF8, 0x38
  ]
  const LO_6: seq<bv8> := [
    0x28, 0xE8, 0xE9, 0x29, 0xEB, 0x2B, 0x2A, 0xEA, 0xEE, 0x2E, 0x2F, 0xEF, 0x2D, 0xED, 0xEC, 0x2C
  ]
  const LO_7: seq<bv8> := [
    0xE4, 0x24, 0x25, 0xE5, 0x27, 0xE7, 0xE6, 0x26, 0x22, 0xE2, 0xE3, 0x23, 0xE1, 0x21, 0x20, 0xE0
  ]
  const LO_8: seq<bv8> := [
    0xA0, 0x60, 0x61, 0xA1, 0x63, 0xA3, 0xA2, 0x62, 0x66, 0xA6, 0xA7, 0x67, 0xA5, 0x65, 0x64, 0xA4
  ]
  const LO_9: seq<bv8> := [
    0x6C, 0xAC, 0xAD, 0x6D, 0xAF, 0x6F, 0x6E, 0xAE, 0xAA, 0x6A, 0x6B, 0xAB, 0x69, 0xA9, 0xA8, 0x68
  ]
  const LO_A: seq<bv8> := [
    0x78, 0xB8, 0xB9, 0x79, 0xBB, 0x7B, 0x7A, 0xBA, 0xBE, 0x7E, 0x7F, 0xBF, 0x7D, 0xBD, 0xBC, 0x7C
  ]
  const LO_B: seq<bv8> := [
    0xB4, 0x74, 0x75, 0xB5, 0x77, 0xB7, 0xB6, 0x76, 0x72, 0xB2, 0xB3, 0x73, 0xB1, 0x71, 0x70, 0xB0
  ]
  const LO_C: seq<bv8> := [
    0x50, 0x90, 0x91, 0x51, 0x93, 0x53, 0x52, 0x92, 0x96, 0x56, 0x57, 0x97, 0x55, 0x95, 0x94, 0x54
  ]
  const LO_D: seq<bv8> := [
    0x9C, 0x5C, 0x5D, 0x9D, 0x5F, 0x9F, 0x9E, 0x5E, 0x5A, 0x9A, 0x9B, 0x5B, 0x99, 0x59, 0x58, 0x98
  ]
  const LO_E: seq<bv8> := [
    0x88, 0x48, 0x49, 0x89, 0x4B, 0x8B, 0x8A, 0x4A, 0x4E, 0x8E, 0x8F, 0x4F, 0x8D, 0x4D, 0x4C, 0x8C
  ]
  const LO_F: seq<bv8> := [
    0x44, 0x84, 0x85, 0x45, 0x87, 0x47, 0x46, 0x86, 0x82, 0x42, 0x43, 0x83, 0x41, 0x81, 0x80, 0x40
  ]

  /** `crc16tab[i]`. */
  function Crc16Tab(i: bv8): bv16 {
    var j := (i & 0xF) as int;
    match i >> 4
    case 0 => TAB_0[j]
    case 1 => TAB_1[j]
    case 2 => TAB_2[j]
    case 3 => TAB_3[j]
    case 4 => TAB_4[j]
    case 5 => TAB_5[j]
    case 6 => TAB_6[j]
    case 7 => TAB_7[j]
    case 8 => TAB_8[j]
    case 9 => TAB_9[j]
    case 10 => TAB_A[j]
    case 11 => TAB_B[j]
    case 12 => TAB_C[j]
    case 13 => TAB_D[j]
    case 14 => TAB_E[j]
    case _ => TAB_F[j]
  }

  /** `auchCRCHi[i]`. */
  function AuchCrcHi(i: bv8): bv8 {
    var j := (i & 0xF) as int;
    match i >> 4
    case 0 => HI_0[j]
    case 1 => HI_1[j]
    case 2 => HI_2[j]
    case 3 => HI_3[j]
    case 4 => HI_4[j]
    case 5 => HI_5[j]
    case 6 => HI_6[j]
    case 7 => HI_7[j]
    case 8 => HI_8[j]
    case 9 => HI_9[j]
    case 10 => HI_A[j]
    case 11 => HI_B[j]
    case 12 => HI_C[j]
    case 13 => HI_D[j]
    case 14 => HI_E[j]
    case _ => HI_F[j]
  }

  /** `auchCRCLo[i]`. */
  function AuchCrcLo(i: bv8): bv8 {
    var j := (i & 0xF) as int;
    match i >> 4
    case 0 => LO_0[j]
    case 1 => LO_1[j]
    case 2 => LO_2[j]
    case 3 => LO_3[j]
    case 4 => LO_4[j]
    case 5 => LO_5[j]
    case 6 => LO_6[j]
    case 7 => LO_7[j]
    case 8 => LO_8[j]
    case 9 => LO_9[j]
    case 10 => LO_A[j]
    case 11 => LO_B[j]
    case 12 => LO_C[j]
    case 13 => LO_D[j]
    case 14 => LO_E[j]
    case _ => LO_F[j]
  }


  function ShiftEight(r: bv16): bv16 {
    Shift(Shift(Shift(Shift(Shift(Shift(Shift(Shift(r))))))))
  }

  lemma LowerEntries(i: bv8)
    requires i < 0x80
    ensures Crc16Tab(i) == ShiftEight(i as bv16)
  {
  }

  lemma UpperEntries(i: bv8)
    requires i >= 0x80
    ensures Crc16Tab(i) == ShiftEight(i as bv16)
  {
  }

  lemma LowerHiEntries(i: bv8)
    requires i < 0x80
    ensures AuchCrcHi(i) as bv16 == LowHalf(ShiftEight(i as bv16))
  {
  }

  lemma UpperHiEntries(i: bv8)
    requires i >= 0x80
    ensures AuchCrcHi(i) as bv16 == LowHalf(ShiftEight(i as bv16))
  {
  }

  lemma LoRows0(i: bv8)
    ensures i >> 4 == 0 ==> LO_0[(i & 0xF) as int] as bv16 == HighHalf(ShiftEight(i as bv16))
    ensures i >> 4 == 1 ==> LO_1[(i & 0xF) as int] as bv16 == HighHalf(ShiftEight(i as bv16))
    ensures i >> 4 == 2 ==> LO_2[(i & 0xF) as int] as bv16 == HighHalf(ShiftEight(i as bv16))
    ensures i >> 4 == 3 ==> LO_3[(i & 0xF) as int] as bv16 == HighHalf(ShiftEight(i as bv16))
  {
  }

  lemma LoRows1(i: bv8)
    ensures i >> 4 == 4 ==> LO_4[(i & 0xF) as int] as bv16 == HighHalf(ShiftEight(i as bv16))
    ensures i >> 4 == 5 ==> LO_5[(i & 0xF) as int] as bv16 == HighHalf(ShiftEight(i as bv16))
    ensures i >> 4 == 6 ==> LO_6[(i & 0xF) as int] as bv16 == HighHalf(ShiftEight(i as bv16))
    ensures i >> 4 == 7 ==> LO_7[(i & 0xF) as int] as bv16 == HighHalf(ShiftEight(i as bv16))
  {
  }

  lemma LoRows2(i: bv8)
    ensures i >> 4 == 8 ==> LO_8[(i & 0xF) as int] as bv16 == HighHalf(ShiftEight(i as bv16))
    ensures i >> 4 == 9 ==> LO_9[(i & 0xF) as int] as bv16 == HighHalf(ShiftEight(i as bv16))
    ensures i >> 4 == 10 ==> LO_A[(i & 0xF) as int] as bv16 == HighHalf(ShiftEight(i as bv16))
    ensures i >> 4 == 11 ==> LO_B[(i & 0xF) as int] as bv16 == HighHalf(ShiftEight(i as bv16))
  {
  }

  lemma LoRows3(i: bv8)
    ensures i >> 4 == 12 ==> LO_C[(i & 0xF) as int] as bv16 == HighHalf(ShiftEight(i as bv16))
    ensures i >> 4 == 13 ==> LO_D[(i & 0xF) as int] as bv16 == HighHalf(ShiftEight(i as bv16))
    ensures i >> 4 == 14 ==> LO_E[(i & 0xF) as int] as bv16 == HighHalf(ShiftEight(i as bv16))
    ensures i >> 4 == 15 ==> LO_F[(i & 0xF) as int] as bv16 == HighHalf(ShiftEight(i as bv16))
  {
  }

  lemma LoEntry(i: bv8)
    ensures AuchCrcLo(i) as bv16 == HighHalf(ShiftEight(i as bv16))
  {
    hide ShiftEight;
    match i >> 6
    case 0 => LoRows0(i);
    case 1 => LoRows1(i);
    case 2 => LoRows2(i);
    case _ => LoRows3(i);
  }

  lemma ShiftEightIsAdvance(r: bv16)
    ensures ShiftEight(r) == Advance(r, 8)
  {
    AdvanceFour(r, 4);
    AdvanceFour(Shift(Shift(Shift(Shift(r)))), 0);
  }

  lemma AdvanceFour(r: bv16, n: nat)
    ensures Advance(r, n + 4) == Advance(Shift(Shift(Shift(Shift(r)))), n)
  {
    hide Shift;
    AdvanceFirst(r, n + 3);
    AdvanceFirst(Shift(r), n + 2);
    AdvanceFirst(Shift(Shift(r)), n + 1);
    AdvanceFirst(Shift(Shift(Shift(r))), n);
  }

  /** Every entry of the 16-bit table is eight division steps of its index. */
  lemma TableEntry(i: bv8)
    ensures Crc16Tab(i) == Advance(i as bv16, 8)
  {
    hide Crc16Tab, ShiftEight;
    ShiftEightIsAdvance(i as bv16);
    if i < 0x80 {
      LowerEntries(i);
    } else {
      UpperEntries(i);
    }
  }

  /** The split tables hold the low and the high byte of the same entries. */
  lemma SplitEntries(i: bv8)
    ensures AuchCrcHi(i) as bv16 == LowHalf(Advance(i as bv16, 8))
    ensures AuchCrcLo(i) as bv16 == HighHalf(Advance(i as bv16, 8))
  {
    hide AuchCrcHi, AuchCrcLo, ShiftEight;
    ShiftEightIsAdvance(i as bv16);
    if i < 0x80 {
      LowerHiEntries(i);
    } else {
      UpperHiEntries(i);
    }
    LoEntry(i);
  }
}
