/**
 Sixteen-bit words as the gateway's C code sees them: signed values, memory images on a
 little-endian host, and the byte swaps made through byte pointers.
 */
module Words {
  import opened Crc16

  const MAX_BUF: nat := 1024

  function SignedByte(b: bv8): (v: int)
    ensures -0x80 <= v < 0x80
  {
    if b < 0x80 then b as int else b as int - 0x100
  }

  /** The value of a `short` with these bits: its high byte carries the sign. */
  function Signed(w: bv16): (v: int)
    ensures -0x8000 <= v < 0x8000
  {
    256 * SignedByte(HighByte(w)) + LowByte(w) as int
  }

  /** A signed byte is congruent to the byte modulo 256, which with its range determines it. */
  lemma SignedByteCongruent(b: bv8)
    ensures (SignedByte(b) - b as int) % 256 == 0
  {
  }

  /** The value of a word by its bytes: the high byte counts 256 times. */
  lemma WordValue(w: bv16)
    ensures w == (HighByte(w) as bv16) * 256 + (LowByte(w) as bv16)
  {
  }

  /** A wire word carries its high byte first. */
  lemma WireWordValue(f: seq<bv8>, i: nat)
    requires i + 1 < |f|
    ensures WordAt(f, i) == (f[i] as bv16) * 256 + (f[i + 1] as bv16)
    ensures HighByte(WordAt(f, i)) == f[i] && LowByte(WordAt(f, i)) == f[i + 1]
  {
    BytesOfWord(f[i + 1], f[i]);
    WordValue(WordAt(f, i));
  }

  /** Host to network order on a little-endian host. */
  function Htons(w: bv16): bv16 {
    BigEndian(LowByte(w), HighByte(w))
  }

  lemma WordBytes(w: bv16)
    ensures LittleEndian(LowByte(w), HighByte(w)) == w
    ensures BigEndian(HighByte(w), LowByte(w)) == w
    ensures LowByte(Htons(w)) == HighByte(w) && HighByte(Htons(w)) == LowByte(w)
  {
  }

  lemma BytesOfWord(a: bv8, b: bv8)
    ensures LowByte(LittleEndian(a, b)) == a && HighByte(LittleEndian(a, b)) == b
  {
  }

  /** Byte 0 is the low half of a word in memory, byte 1 the high half. */
  function SetByte(w: bv16, which: nat, b: bv8): bv16 {
    if which == 0 then LittleEndian(b, HighByte(w)) else LittleEndian(LowByte(w), b)
  }

  lemma SetBothBytes(w: bv16, a: bv8, b: bv8)
    ensures SetByte(SetByte(w, 1, b), 0, a) == LittleEndian(a, b)
    ensures SetByte(SetByte(w, 0, a), 1, b) == LittleEndian(a, b)
  {
    BytesOfWord(a, HighByte(w));
    BytesOfWord(LowByte(w), b);
  }

  /** A wire word is the two's complement value of its bytes, most significant first. */
  lemma SignedBigEndian(h: bv8, l: bv8)
    ensures Signed(BigEndian(h, l)) == 256 * h as int + l as int - (if h < 0x80 then 0 else 65536)
  {
    BytesOfWord(l, h);
  }

  lemma WholeWords(q: int, x: int)
    ensures (256 * q + x) % 256 == x % 256
  {
  }

  /** Two bytes per point: only the low byte of the count shows in a byte. */
  lemma DoubledCount(h: bv8, l: bv8)
    ensures (2 * Signed(BigEndian(h, l))) % 256 == (2 * l as int) % 256
  {
    hide Signed, BigEndian;
    SignedBigEndian(h, l);
    WholeWords(2 * h as int - (if h < 0x80 then 0 else 512), 2 * l as int);
  }

  /** The wire word that starts at position `i`. */
  function WordAt(f: seq<bv8>, i: nat): bv16
    requires i + 1 < |f|
  {
    BigEndian(f[i], f[i + 1])
  }

  /** The two stores through a byte pointer that read a wire word. */
  method ReadWord(rx_buf: array<bv8>, i: nat) returns (w: bv16)
    requires i + 1 < rx_buf.Length
    ensures w == WordAt(rx_buf[..], i)
  {
    hide LittleEndian;
    w := LittleEndian(rx_buf[i + 1], rx_buf[i]);
  }

  /** Conversion of an `int` to an unsigned byte. */
  function AsByte(n: int): bv8 {
    ByteOf(n % 256)
  }

  function ByteOf(x: nat): bv8
    requires x < 256
  {
    x as bv8
  }

  lemma ByteOfKeeps(b: bv8)
    ensures ByteOf(b as int) == b
  {
  }

  lemma NextByte(b: bv8)
    requires b as int < 255
    ensures (b + 1) as int == b as int + 1
  {
  }

  lemma {:induction false} ByteWithValue(n: nat) returns (b: bv8)
    requires n < 256
    ensures b as int == n
  {
    if n == 0 {
      b := 0;
    } else {
      b := ByteWithValue(n - 1);
      NextByte(b);
      b := b + 1;
    }
  }

  /** The conversion keeps the value modulo 256, so exactly the numbers that fit survive it. */
  lemma AsByteValue(n: int)
    ensures AsByte(n) as int == n % 256
    ensures AsByte(n) as int == n <==> 0 <= n < 256
  {
    hide ByteOf;
    var b := ByteWithValue(n % 256);
    ByteOfKeeps(b);
  }

  /** Integer division as C does it, towards zero. */
  function Truncated(n: int, d: int): int
    requires d > 0
  {
    if n >= 0 then n / d else -(-n / d)
  }

  /** `Ethernet_Get_Byte_Size`, `MBAP_Ethernet_Get_Byte_Size`. */
  function ByteSize(num_of_points: int): int {
    if num_of_points % 8 == 0 then Truncated(num_of_points, 8) else Truncated(num_of_points, 8) + 1
  }

  /**
   The byte size is the least number of bytes that hold the bits, except for negative counts
   that are not multiples of eight: division truncates upwards there and one is added on top,
   which is one too many.
   */
  lemma ByteSizeIsLeastIff(n: int)
    ensures 8 * (ByteSize(n) - 1) < n <= 8 * ByteSize(n) <==> n >= 0 || n % 8 == 0
    ensures n < 0 && n % 8 != 0 ==> 8 * (ByteSize(n) - 2) < n <= 8 * (ByteSize(n) - 1)
  {
  }

  lemma ByteSizeOfCount(n: nat)
    ensures ByteSize(n) == (n + 7) / 8
  {
  }

  /** How often a loop up to a `short` bound runs. */
  function Points(num_of_points: bv16): nat {
    if Signed(num_of_points) < 0 then 0 else Signed(num_of_points)
  }

  lemma NextStored<T>(words: seq<T>, before: seq<T>, j: nat)
    requires j < |words| <= |before|
    ensures (words[..j] + before[j..])[j := words[j]] == words[..j + 1] + before[j + 1..]
  {
  }

  /** `memcpy(bp + at, &w, 2)`. */
  method PutWord(buf: array<bv8>, at: nat, w: bv16)
    requires at + 2 <= buf.Length
    modifies buf
    ensures buf[..] == old(buf[..])[at := LowByte(w)][at + 1 := HighByte(w)]
  {
    buf[at] := LowByte(w);
    buf[at + 1] := HighByte(w);
  }

  /** `memcpy(bp + at, data, n)`. */
  method PutBytes(buf: array<bv8>, at: nat, data: array<bv8>, n: nat)
    requires at + n <= buf.Length && n <= data.Length && data != buf
    modifies buf
    ensures buf[..] == old(buf[..at]) + data[..n] + old(buf[at + n..])
  {
    forall i | 0 <= i < n {
      buf[at + i] := data[i];
    }
  }

  /** A store through a byte pointer into an array of words. */
  method PokeByte(a: array<bv16>, i: nat, b: bv8)
    requires i / 2 < a.Length
    modifies a
    ensures a[..] == old(a[..])[i / 2 := SetByte(old(a[i / 2]), i % 2, b)]
  {
    a[i / 2] := SetByte(a[i / 2], i % 2, b);
  }

  /** Two such stores fill word `j` with the wire word at `i`, in either order of the stores. */
  method PokeWireWord(a: array<bv16>, j: nat, rx_buf: array<bv8>, i: nat)
    requires j < a.Length && i + 1 < rx_buf.Length
    modifies a
    ensures a[..] == old(a[..])[j := WordAt(rx_buf[..], i)]
  {
    hide SetByte, LittleEndian;
    SetBothBytes(a[j], rx_buf[i + 1], rx_buf[i]);
    PokeByte(a, 2 * j, rx_buf[i + 1]);
    PokeByte(a, 2 * j + 1, rx_buf[i]);
  }

  /** `memset(buf, 0, sizeof buf)`. */
  method Clear(buf: array<bv8>)
    modifies buf
    ensures buf[..] == seq(buf.Length, _ => 0)
  {
    forall i | 0 <= i < buf.Length {
      buf[i] := 0;
    }
  }
}
