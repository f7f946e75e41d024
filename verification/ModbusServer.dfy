/**
 The server's field extraction, and the round trip: whatever the client builds is accepted
 and read back field by field.
 */
module ModbusServer {
  import opened BitSerial
  import opened ErrorDetection
  import opened Crc16
  import opened Words
  import opened ModbusFrame

  /** Functions 1 and 2: the byte count is derived from the number of points. */
  method GetValues0102(rx_buf: array<bv8>)
    returns (slave_addr: bv8, memory_addr: bv16, num_of_points: bv16, byte_count: bv8)
    requires rx_buf.Length >= 6
    ensures slave_addr == rx_buf[0] && memory_addr == WordAt(rx_buf[..], 2) && num_of_points == WordAt(rx_buf[..], 4)
    ensures byte_count as int == ByteSize(Signed(num_of_points)) % 256
    ensures rx_buf[4] < 0x80 ==>
              byte_count as int == ((256 * rx_buf[4] as int + rx_buf[5] as int + 7) / 8) % 256
  {
    hide Signed, AsByte, ByteSize, BigEndian;
    SignedBigEndian(rx_buf[4], rx_buf[5]);
    if rx_buf[4] < 0x80 {
      ByteSizeOfCount(256 * rx_buf[4] as int + rx_buf[5] as int);
    }
    slave_addr := rx_buf[0];
    memory_addr := ReadWord(rx_buf, 2);
    num_of_points := ReadWord(rx_buf, 4);
    byte_count := AsByte(ByteSize(Signed(num_of_points)));
    AsByteValue(ByteSize(Signed(num_of_points)));
  }

  /** Functions 3 and 4: two bytes per point, in one byte. */
  method GetValues0304(rx_buf: array<bv8>)
    returns (slave_addr: bv8, memory_addr: bv16, num_of_points: bv16, byte_count: bv8)
    requires rx_buf.Length >= 6
    ensures slave_addr == rx_buf[0] && memory_addr == WordAt(rx_buf[..], 2) && num_of_points == WordAt(rx_buf[..], 4)
    ensures byte_count as int == (2 * Signed(num_of_points)) % 256
    ensures byte_count as int == (2 * rx_buf[5] as int) % 256
  {
    hide Signed, AsByte, BigEndian;
    DoubledCount(rx_buf[4], rx_buf[5]);
    slave_addr := rx_buf[0];
    memory_addr := ReadWord(rx_buf, 2);
    num_of_points := ReadWord(rx_buf, 4);
    byte_count := AsByte(Signed(num_of_points) * 2);
    AsByteValue(Signed(num_of_points) * 2);
  }

  method GetValues0506(rx_buf: array<bv8>) returns (slave_addr: bv8, memory_addr: bv16, receive_data: bv16)
    requires rx_buf.Length >= 6
    ensures slave_addr == rx_buf[0] && memory_addr == WordAt(rx_buf[..], 2) && receive_data == WordAt(rx_buf[..], 4)
  {
    hide WordAt;
    slave_addr := rx_buf[0];
    memory_addr := ReadWord(rx_buf, 2);
    receive_data := ReadWord(rx_buf, 4);
  }

  method GetValues0F(rx_buf: array<bv8>, receive_data: array<bv8>)
    returns (slave_addr: bv8, memory_addr: bv16, num_of_points: bv16, byte_count: bv8)
    requires rx_buf.Length >= 7 && rx_buf.Length >= 7 + rx_buf[6] as int && receive_data.Length >= rx_buf[6] as int
    requires receive_data != rx_buf
    modifies receive_data
    ensures slave_addr == rx_buf[0] && memory_addr == WordAt(rx_buf[..], 2) && num_of_points == WordAt(rx_buf[..], 4)
    ensures byte_count == rx_buf[6]
    ensures receive_data[..] == rx_buf[7..7 + byte_count as int] + old(receive_data[byte_count as int..])
  {
    hide WordAt;
    slave_addr := rx_buf[0];
    memory_addr := ReadWord(rx_buf, 2);
    num_of_points := ReadWord(rx_buf, 4);
    byte_count := rx_buf[6];
    StoreBytes(rx_buf, byte_count as int, receive_data);
  }

  /** The payload loop of function 0x0F. */
  method StoreBytes(rx_buf: array<bv8>, byte_count: nat, receive_data: array<bv8>)
    requires 7 + byte_count <= rx_buf.Length && byte_count <= receive_data.Length && receive_data != rx_buf
    modifies receive_data
    ensures receive_data[..] == rx_buf[7..7 + byte_count] + old(receive_data[byte_count..])
  {
    ghost var payload := rx_buf[7..7 + byte_count];
    var i := 0;
    while i < byte_count
      invariant 0 <= i <= byte_count
      invariant receive_data[..] == payload[..i] + old(receive_data[i..])
    {
      NextStored(payload, old(receive_data[..]), i);
      receive_data[i] := rx_buf[i + 7];
      i := i + 1;
    }
    assert payload[..i] == payload;
  }

  /** The words that the register loop stores for a byte count: one for every byte pair begun. */
  function ReceivedWords(f: seq<bv8>, byte_count: nat): (w: seq<bv16>)
    requires 7 + 2 * ((byte_count + 1) / 2) <= |f|
    ensures |w| == (byte_count + 1) / 2
  {
    seq((byte_count + 1) / 2, k requires 0 <= k < (byte_count + 1) / 2 => WordAt(f, 7 + 2 * k))
  }

  method GetValues10(rx_buf: array<bv8>, receive_data: array<bv16>)
    returns (slave_addr: bv8, memory_addr: bv16, num_of_points: bv16, byte_count: bv8)
    requires rx_buf.Length >= 7 && rx_buf.Length >= 7 + 2 * ((rx_buf[6] as int + 1) / 2)
    requires receive_data.Length >= (rx_buf[6] as int + 1) / 2
    modifies receive_data
    ensures slave_addr == rx_buf[0] && memory_addr == WordAt(rx_buf[..], 2) && num_of_points == WordAt(rx_buf[..], 4)
    ensures byte_count == rx_buf[6]
    ensures var n := (byte_count as int + 1) / 2;
            receive_data[..] == ReceivedWords(rx_buf[..], byte_count as int) + old(receive_data[n..])
  {
    hide WordAt, ReceivedWords;
    slave_addr := rx_buf[0];
    memory_addr := ReadWord(rx_buf, 2);
    num_of_points := ReadWord(rx_buf, 4);
    byte_count := rx_buf[6];
    StoreWords(rx_buf, byte_count as int, receive_data);
  }

  /** The register loop: the index advances twice a round while the words are counted in `j`. */
  method StoreWords(rx_buf: array<bv8>, byte_count: nat, receive_data: array<bv16>)
    requires 7 + 2 * ((byte_count + 1) / 2) <= rx_buf.Length && (byte_count + 1) / 2 <= receive_data.Length
    modifies receive_data
    ensures receive_data[..] == ReceivedWords(rx_buf[..], byte_count) + old(receive_data[(byte_count + 1) / 2..])
  {
    hide WordAt, ReceivedWords;
    ghost var words := ReceivedWords(rx_buf[..], byte_count);
    var i, j := 0, 0;
    while i < byte_count
      invariant i == 2 * j && j <= |words|
      invariant receive_data[..] == words[..j] + old(receive_data[j..])
    {
      ReceivedWord(rx_buf[..], byte_count, j);
      PokeWireWord(receive_data, j, rx_buf, i + 7);
      NextStored(words, old(receive_data[..]), j);
      i := i + 1;
      j := j + 1;
      i := i + 1;
    }
    assert words[..j] == words;
  }

  lemma ReceivedWord(f: seq<bv8>, byte_count: nat, k: nat)
    requires 7 + 2 * ((byte_count + 1) / 2) <= |f| && k < (byte_count + 1) / 2
    ensures ReceivedWords(f, byte_count)[k] == WordAt(f, 7 + 2 * k)
  {
  }

  // ---------------------------------------------------------------- round trips

  /** Every frame the client seals passes the check. */
  lemma FrameAccepted(body: seq<bv8>)
    ensures Accepts(Frame(body)) && Intact(Frame(body))
  {
    var f := Frame(body);
    assert f[..|f| - 2] == body;
    AcceptsIffResidueZero(f);
  }

  /** The fields that all requests share come back unchanged, whatever follows them. */
  lemma RoundTripHeader(id: bv8, func: bv8, addr: bv16, word: bv16, rest: seq<bv8>)
    ensures var f := Frame(Header(id, func, addr, word) + rest);
            && Accepts(f) && f[0] == id && f[1] == func
            && WordAt(f, 2) == addr && WordAt(f, 4) == word && f[6..6 + |rest|] == rest
  {
    hide HighByte, LowByte, BigEndian, Accepts;
    FrameAccepted(Header(id, func, addr, word) + rest);
    WordBytes(addr);
    WordBytes(word);
  }

  /** Reads and single writes (functions 1 to 6), as built: eight bytes, all fields come back. */
  lemma RoundTripRequest(id: bv8, func: bv8, addr: bv16, word: bv16)
    ensures var f := Frame(Header(id, func, addr, word));
            && |f| == 8 && Accepts(f) && f[0] == id && f[1] == func
            && WordAt(f, 2) == addr && WordAt(f, 4) == word
  {
    hide *;
    assert Header(id, func, addr, word) + [] == Header(id, func, addr, word);
    RoundTripHeader(id, func, addr, word, []);
  }

  /** Function 0x0F: the payload comes back unchanged. */
  lemma RoundTrip0F(id: bv8, func: bv8, addr: bv16, num: bv16, byte_size: bv8, data: seq<bv8>)
    requires |data| == byte_size as int
    ensures var f := Frame(Header(id, func, addr, num) + [byte_size] + data);
            && Accepts(f) && f[0] == id && WordAt(f, 2) == addr && WordAt(f, 4) == num
            && f[6] == byte_size && f[7..7 + f[6] as int] == data
  {
    hide HighByte, LowByte, BigEndian, Accepts;
    assert Header(id, func, addr, num) + [byte_size] + data == Header(id, func, addr, num) + ([byte_size] + data);
    RoundTripHeader(id, func, addr, num, [byte_size] + data);
    var f := Frame(Header(id, func, addr, num) + ([byte_size] + data));
    assert f[7..7 + |data|] == f[6..6 + |[byte_size] + data|][1..];
    assert f[6] == f[6..6 + |[byte_size] + data|][0];
  }

  lemma {:induction false} WireWordsAt(data: seq<bv16>, k: nat)
    requires k < |data|
    ensures WireWords(data)[2 * k] == HighByte(data[k]) && WireWords(data)[2 * k + 1] == LowByte(data[k])
  {
    hide HighByte, LowByte;
    if k < |data| - 1 {
      WireWordsAt(data[..|data| - 1], k);
    }
  }

  /** The frame that the client builds for function 0x10. */
  function Body10(id: bv8, func: bv8, addr: bv16, num: bv16, byte_size: bv8, data: seq<bv16>): (b: seq<bv8>)
    ensures |b| == 7 + byte_size as int
  {
    Header(id, func, addr, num) + [byte_size] + Padded(WireWords(data), byte_size as int)
  }

  lemma PayloadBytes(id: bv8, func: bv8, addr: bv16, num: bv16, byte_size: bv8, data: seq<bv16>, k: nat)
    requires k < byte_size as int
    ensures Frame(Body10(id, func, addr, num, byte_size, data))[7 + k] ==
            if k < 2 * |data| then WireWords(data)[k] else 0
  {
    hide Header, WireWords, LowByte, HighByte, Register;
  }

  /** Every complete word of the payload reads back as the register sent, or as zero padding. */
  lemma ReceivedRegister(id: bv8, func: bv8, addr: bv16, num: bv16, byte_size: bv8, data: seq<bv16>, k: nat)
    requires 2 * k + 1 < byte_size as int
    ensures WordAt(Frame(Body10(id, func, addr, num, byte_size, data)), 7 + 2 * k) ==
            if k < |data| then data[k] else 0
  {
    hide Frame, Body10, WireWords, LowByte, HighByte, BigEndian;
    PayloadBytes(id, func, addr, num, byte_size, data, 2 * k);
    PayloadBytes(id, func, addr, num, byte_size, data, 2 * k + 1);
    if k < |data| {
      WireWordsAt(data, k);
      WordBytes(data[k]);
    } else {
      ZeroWord();
    }
  }

  lemma ZeroWord()
    ensures BigEndian(0, 0) == 0
  {
  }

  /** Function 0x10: fields and byte size always come back; the payload is read by `RoundTrip10Iff`. */
  lemma RoundTrip10Fields(id: bv8, func: bv8, addr: bv16, num: bv16, byte_size: bv8, data: seq<bv16>)
    ensures var f := Frame(Body10(id, func, addr, num, byte_size, data));
            && Accepts(f) && f[0] == id && WordAt(f, 2) == addr && WordAt(f, 4) == num && f[6] == byte_size
  {
    RoundTrip0F(id, func, addr, num, byte_size, Padded(WireWords(data), byte_size as int));
  }

  /** The last word of a payload of odd size takes the first checksum byte as its low byte. */
  predicate ChecksumCompletes(body: seq<bv8>, data: seq<bv16>) {
    |data| > 0 && LowByte(data[|data| - 1]) == LowByte(Register(INITIAL, body))
  }

  /**
   Function 0x10: the registers come back exactly when the byte size is twice their number,
   or one less and the checksum happens to supply the missing low byte.
   */
  lemma RoundTrip10Iff(id: bv8, func: bv8, addr: bv16, num: bv16, byte_size: bv8, data: seq<bv16>)
    ensures var body := Body10(id, func, addr, num, byte_size, data);
            ReceivedWords(Frame(body), byte_size as int) == data <==>
            || byte_size as int == 2 * |data|
            || (byte_size as int == 2 * |data| - 1 && ChecksumCompletes(body, data))
  {
    hide Frame, Body10, LowByte, HighByte, BigEndian, WordAt, Register, ReceivedWords;
    var n := byte_size as int;
    var f := Frame(Body10(id, func, addr, num, byte_size, data));
    var w := ReceivedWords(f, n);
    forall k | 0 <= k < |w| && 2 * k + 1 < n
      ensures w[k] == if k < |data| then data[k] else 0
    {
      ReceivedWord(f, n, k);
      ReceivedRegister(id, func, addr, num, byte_size, data, k);
    }
    WordsMatchIff(w, data, n);
    if n == 2 * |data| - 1 {
      ReceivedWord(f, n, |data| - 1);
      LastWord(id, func, addr, num, byte_size, data);
    }
  }

  lemma WordsMatchIff(w: seq<bv16>, data: seq<bv16>, n: nat)
    requires |w| == (n + 1) / 2
    requires forall k | 0 <= k < |w| && 2 * k + 1 < n :: w[k] == if k < |data| then data[k] else 0
    ensures w == data <==> n == 2 * |data| || (n == 2 * |data| - 1 && w[|data| - 1] == data[|data| - 1])
  {
    if n == 2 * |data| || (n == 2 * |data| - 1 && w[|data| - 1] == data[|data| - 1]) {
      assert |w| == |data|;
    }
  }

  lemma LastWord(id: bv8, func: bv8, addr: bv16, num: bv16, byte_size: bv8, data: seq<bv16>)
    requires byte_size as int == 2 * |data| - 1
    ensures var body := Body10(id, func, addr, num, byte_size, data);
            WordAt(Frame(body), 5 + 2 * |data|) == data[|data| - 1] <==> ChecksumCompletes(body, data)
  {
    hide Body10, LowByte, HighByte, LittleEndian, WireWords, Register;
    var m := |data| - 1;
    var r := Register(INITIAL, Body10(id, func, addr, num, byte_size, data));
    PayloadBytes(id, func, addr, num, byte_size, data, 2 * m);
    WireWordsAt(data, m);
    WordBytes(data[m]);
    LittleEndianInjective(LowByte(r), HighByte(data[m]), LowByte(data[m]), HighByte(data[m]));
  }
}
