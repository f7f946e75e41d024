/**
 Coils as bytes and as cells: the Modbus TCP client unpacks received bytes into one cell per
 coil and packs eight cells into one byte.
 */
module Coils {
  import opened Words

  const HEADER_SIZE: nat := 9

  /** `(b >> j) & 1` */
  function CoilBit(b: bv8, j: nat): bv8
    requires j < 8
  {
    (b >> j) & 1
  }

  /** The expression stored by `MBAP_Ethernet_Make_Byte`: eight ints or-ed at their places, cut to a byte. */
  function MakeByte(data: seq<bv32>): bv8
    requires |data| == 8
  {
    (((data[0] << 0) | (data[1] << 1) | (data[2] << 2) | (data[3] << 3) |
      (data[4] << 4) | (data[5] << 5) | (data[6] << 6) | (data[7] << 7)) & 0xFF) as bv8
  }

  /** The cells that the bytes from `from` on unpack to. */
  function Unpacked(rx: seq<bv8>, from: nat, n: nat): (c: seq<bv8>)
    requires from + n <= |rx|
    ensures |c| == 8 * n
  {
    seq(8 * n, k requires 0 <= k < 8 * n => CoilBit(rx[from + k / 8], k % 8))
  }

  /** How many bytes the decoding loop visits for a count of points. */
  function BytesVisited(num_of_points: bv16): nat {
    var n := ByteSize(Signed(num_of_points));
    if n < 0 then 0 else n
  }

  /** `MBAP_Ethernet_Modbus_Data_Analyze_0102`: whole bytes are unpacked, also past the last point. */
  method DataAnalyze0102(rx: array<bv8>, num_of_points: bv16, data: array<bv8>)
    requires HEADER_SIZE + BytesVisited(num_of_points) <= rx.Length
    requires 8 * BytesVisited(num_of_points) <= data.Length && data != rx
    modifies data
    ensures data[..] == Unpacked(rx[..], HEADER_SIZE, BytesVisited(num_of_points)) +
                        old(data[8 * BytesVisited(num_of_points)..])
    ensures forall k | 0 <= k < 8 * BytesVisited(num_of_points) :: data[k] == CoilBit(rx[9 + k / 8], k % 8)
  {
    hide Signed, Unpacked, ByteSize;
    var byte_cnt := ByteSize(Signed(num_of_points));
    ghost var n := BytesVisited(num_of_points);
    ghost var cells := Unpacked(rx[..], HEADER_SIZE, n);
    var i := 0;
    while i < byte_cnt
      invariant 0 <= i <= n
      invariant data[..] == cells[..8 * i] + old(data[8 * i..])
    {
      UnpackByte(rx, n, i, data, old(data[..]));
      i := i + 1;
    }
    assert cells[..8 * i] == cells;
    AllCells(rx[..], n, data[..]);
  }

  /** The inner loop: one byte fills eight cells. */
  method UnpackByte(rx: array<bv8>, ghost n: nat, i: nat, data: array<bv8>, ghost before: seq<bv8>)
    requires i < n && HEADER_SIZE + n <= rx.Length && 8 * n <= data.Length == |before| && data != rx
    requires data[..] == Unpacked(rx[..], HEADER_SIZE, n)[..8 * i] + before[8 * i..]
    modifies data
    ensures data[..] == Unpacked(rx[..], HEADER_SIZE, n)[..8 * i + 8] + before[8 * i + 8..]
  {
    hide CoilBit, Unpacked;
    ghost var cells := Unpacked(rx[..], HEADER_SIZE, n);
    var j := 0;
    while j < 8
      invariant 0 <= j <= 8
      invariant data[..] == cells[..8 * i + j] + before[8 * i + j..]
    {
      Cell(rx[..], HEADER_SIZE, n, i, j);
      NextStored(cells, before, 8 * i + j);
      data[8 * i + j] := CoilBit(rx[HEADER_SIZE + i], j);
      j := j + 1;
    }
  }

  lemma Cell(rx: seq<bv8>, from: nat, n: nat, i: nat, j: nat)
    requires from + n <= |rx| && i < n && j < 8
    ensures Unpacked(rx, from, n)[8 * i + j] == CoilBit(rx[from + i], j)
  {
    hide CoilBit;
    assert (8 * i + j) / 8 == i && (8 * i + j) % 8 == j;
  }

  lemma AllCells(rx: seq<bv8>, n: nat, data: seq<bv8>)
    requires HEADER_SIZE + n <= |rx| && Unpacked(rx, HEADER_SIZE, n) <= data
    ensures forall k | 0 <= k < 8 * n :: data[k] == CoilBit(rx[9 + k / 8], k % 8)
  {
    hide CoilBit;
  }

  /** The first coil is the lowest bit of a byte: coil j counts 2 to the power j. */
  lemma CoilsOfByte(b: bv8)
    ensures b == CoilBit(b, 0) + 2 * CoilBit(b, 1) + 4 * CoilBit(b, 2) + 8 * CoilBit(b, 3) +
                 16 * CoilBit(b, 4) + 32 * CoilBit(b, 5) + 64 * CoilBit(b, 6) + 128 * CoilBit(b, 7)
    ensures forall j | 0 <= j < 8 :: CoilBit(b, j) == 0 || CoilBit(b, j) == 1
  {
  }

  // ---------------------------------------------------------------- packing undoes unpacking

  function Widened(c: bv8): bv32 {
    c as bv32
  }

  /** Cells widened to the ints that the packing function takes. */
  function AsInts(c: seq<bv8>): (d: seq<bv32>)
    ensures |d| == |c|
  {
    seq(|c|, k requires 0 <= k < |c| => Widened(c[k]))
  }

  lemma EightBits(b: bv8)
    ensures MakeByte([Widened(CoilBit(b, 0)), Widened(CoilBit(b, 1)), Widened(CoilBit(b, 2)), Widened(CoilBit(b, 3)),
                      Widened(CoilBit(b, 4)), Widened(CoilBit(b, 5)), Widened(CoilBit(b, 6)), Widened(CoilBit(b, 7))]) == b
  {
  }

  /** Packing any unpacked group of eight cells restores the received byte. */
  lemma PackUnpacked(rx: seq<bv8>, from: nat, n: nat, i: nat)
    requires from + n <= |rx| && i < n
    ensures MakeByte(AsInts(Unpacked(rx, from, n)[8 * i..8 * i + 8])) == rx[from + i]
  {
    hide CoilBit, MakeByte, Unpacked, Widened;
    var g := Unpacked(rx, from, n)[8 * i..8 * i + 8];
    forall j | 0 <= j < 8
      ensures g[j] == CoilBit(rx[from + i], j)
    {
      Cell(rx, from, n, i, j);
    }
    var b := rx[from + i];
    assert AsInts(g) ==
           [Widened(CoilBit(b, 0)), Widened(CoilBit(b, 1)), Widened(CoilBit(b, 2)), Widened(CoilBit(b, 3)),
            Widened(CoilBit(b, 4)), Widened(CoilBit(b, 5)), Widened(CoilBit(b, 6)), Widened(CoilBit(b, 7))];
    EightBits(b);
  }

  predicate IsBit(x: bv32) {
    x == 0 || x == 1
  }

  /** Unpacking a packed group gives it back exactly when every int is 0 or 1. */
  lemma UnpackPackedIff(d: seq<bv32>)
    requires |d| == 8
    ensures (forall j | 0 <= j < 8 :: Widened(CoilBit(MakeByte(d), j)) == d[j]) <==>
            (forall j | 0 <= j < 8 :: IsBit(d[j]))
  {
    hide MakeByte, CoilBit, Widened, IsBit;
    forall j | 0 <= j < 8
      ensures IsBit(Widened(CoilBit(MakeByte(d), j)))
    {
      CoilIsBit(MakeByte(d), j);
    }
    if forall j | 0 <= j < 8 :: IsBit(d[j]) {
      BitsComeBack(d);
    }
  }

  lemma CoilIsBit(b: bv8, j: nat)
    requires j < 8
    ensures IsBit(Widened(CoilBit(b, j)))
  {
  }

  lemma BitsComeBack(d: seq<bv32>)
    requires |d| == 8 && forall j | 0 <= j < 8 :: IsBit(d[j])
    ensures forall j | 0 <= j < 8 :: Widened(CoilBit(MakeByte(d), j)) == d[j]
  {
    hide MakeByte, CoilBit, Widened, IsBit;
    PackedBits(d[0], d[1], d[2], d[3], d[4], d[5], d[6], d[7]);
    assert d == [d[0], d[1], d[2], d[3], d[4], d[5], d[6], d[7]];
  }

  lemma PackedBits(a: bv32, b: bv32, c: bv32, d: bv32, e: bv32, f: bv32, g: bv32, h: bv32)
    requires IsBit(a) && IsBit(b) && IsBit(c) && IsBit(d) && IsBit(e) && IsBit(f) && IsBit(g) && IsBit(h)
    ensures var m := MakeByte([a, b, c, d, e, f, g, h]);
            && Widened(CoilBit(m, 0)) == a && Widened(CoilBit(m, 1)) == b
            && Widened(CoilBit(m, 2)) == c && Widened(CoilBit(m, 3)) == d
            && Widened(CoilBit(m, 4)) == e && Widened(CoilBit(m, 5)) == f
            && Widened(CoilBit(m, 6)) == g && Widened(CoilBit(m, 7)) == h
  {
  }
}
