/**
 The frames that the Modbus client builds in its transmit buffer and the check that both ends
 apply to what they receive.  A frame is a body followed by its checksum, low byte first
 (MODBUS over Serial Line V1.02, section 2.5.1.2); words in the body are big-endian (MODBUS
 Application Protocol V1.1b3, section 4.2).
 */
module ModbusFrame {
  import opened BitSerial
  import opened Crc16
  import opened Words

  // ---------------------------------------------------------------- what the frames look like

  /** A body with its checksum appended. */
  function Frame(body: seq<bv8>): (f: seq<bv8>)
    ensures |f| == |body| + 2
  {
    body + [LowByte(Register(INITIAL, body)), HighByte(Register(INITIAL, body))]
  }

  /** The six bytes that every request starts with. */
  function Header(id: bv8, func: bv8, addr: bv16, word: bv16): (h: seq<bv8>)
    ensures |h| == 6
  {
    [id, func, HighByte(addr), LowByte(addr), HighByte(word), LowByte(word)]
  }

  /** Registers as they go on the wire. */
  function WireWords(data: seq<bv16>): (b: seq<bv8>)
    ensures |b| == 2 * |data|
  {
    if |data| == 0 then []
    else WireWords(data[..|data| - 1]) + [HighByte(data[|data| - 1]), LowByte(data[|data| - 1])]
  }

  /** The first `n` bytes of `s`, zeros where it has no more. */
  function Padded(s: seq<bv8>, n: nat): (p: seq<bv8>)
    ensures |p| == n
  {
    seq(n, k requires 0 <= k < n => if k < |s| then s[k] else 0)
  }

  /** Storing the next bytes of a zero-filled buffer appends them. */
  lemma PaddedPut(s: seq<bv8>, a: bv8, n: nat)
    requires |s| < n
    ensures Padded(s, n)[|s| := a] == Padded(s + [a], n)
  {
  }

  lemma PaddedPutWord(s: seq<bv8>, a: bv8, b: bv8, n: nat)
    requires |s| + 2 <= n
    ensures Padded(s, n)[|s| := a][|s| + 1 := b] == Padded(s + [a, b], n)
  {
    PaddedPut(s, a, n);
    PaddedPut(s + [a], b, n);
    assert s + [a] + [b] == s + [a, b];
  }

  lemma PaddedStart(a: bv8, b: bv8, n: nat)
    requires 2 <= n
    ensures Padded([], n)[0 := a][1 := b] == Padded([a, b], n)
  {
    PaddedPutWord([], a, b, n);
    assert [] + [a, b] == [a, b];
  }

  lemma HeaderPieces(id: bv8, func: bv8, addr: bv16, word: bv16)
    ensures [id, func] + [HighByte(addr), LowByte(addr)] + [HighByte(word), LowByte(word)] ==
            Header(id, func, addr, word)
  {
    hide HighByte, LowByte;
  }

  lemma PaddedPrefix(h: seq<bv8>, s: seq<bv8>, m: nat, n: nat)
    requires |h| + m <= n
    ensures Padded(h + s, n)[..|h| + m] == h + Padded(s, m)
  {
  }

  lemma ClearedIsPadded(s: seq<bv8>, n: nat)
    requires s == seq(n, _ => 0)
    ensures s == Padded([], n)
  {
  }

  lemma PaddedFront(s: seq<bv8>, n: nat)
    requires |s| <= n
    ensures Padded(s, n)[..|s|] == s
  {
  }

  // ---------------------------------------------------------------- building requests

  class Client {
    const tx: array<bv8>
    const rx: array<bv8>

    ghost predicate Valid() reads this {
      tx.Length == MAX_BUF && rx.Length == MAX_BUF && tx != rx
    }

    constructor ()
      ensures Valid() && fresh(tx) && fresh(rx)
      ensures tx.Length == rx.Length == 1024
    {
      tx := new bv8[MAX_BUF](_ => 0);
      rx := new bv8[MAX_BUF](_ => 0);
    }

    /** The checksum of the first `length - 2` bytes, stored behind them. */
    method Seal(length: nat)
      requires Valid() && 2 <= length <= MAX_BUF
      modifies tx
      ensures tx[..length] == Frame(old(tx[..length - 2]))
      ensures tx[length..] == old(tx[length..])
    {
      var n := length - 2;
      var hi := Crc16Hi(tx, n);
      var lo := Crc16Lo(tx, n);
      var txmsg_crc := LittleEndian(hi, lo);
      BytesOfWord(hi, lo);
      PutWord(tx, n, txmsg_crc);
    }

    /** The part that every request builder starts with: clear the buffer, fill in six bytes. */
    method PutHeader(unit_id: bv8, func: bv8, addr: bv16, word: bv16)
      requires Valid()
      modifies tx
      ensures tx[..] == Padded(Header(unit_id, func, addr, word), MAX_BUF)
    {
      hide Htons, HighByte, LowByte, Padded, Header;
      var txmsg_addr := Htons(addr);
      var txmsg_word := Htons(word);
      WordBytes(addr);
      WordBytes(word);
      Clear(tx);
      ClearedIsPadded(tx[..], MAX_BUF);
      PaddedStart(unit_id, func, MAX_BUF);
      tx[0] := unit_id;
      tx[1] := func;
      PaddedPutWord([unit_id, func], HighByte(addr), LowByte(addr), MAX_BUF);
      PutWord(tx, 2, txmsg_addr);
      HeaderPieces(unit_id, func, addr, word);
      ghost var s := [unit_id, func] + [HighByte(addr), LowByte(addr)];
      PaddedPutWord(s, HighByte(word), LowByte(word), MAX_BUF);
      PutWord(tx, 4, txmsg_word);
    }

    /**
     Read requests (functions 1 to 4) and single writes (5 and 6): the last word is the
     number of points or the value.
     */
    method BuildRequest(unit_id: bv8, func: bv8, addr: bv16, word: bv16) returns (txmsg_length: nat)
      requires Valid()
      modifies tx
      ensures txmsg_length == 8
      ensures tx[..8] == Frame(Header(unit_id, func, addr, word))
    {
      hide Header, Padded;
      txmsg_length := 8;
      PutHeader(unit_id, func, addr, word);
      PaddedFront(Header(unit_id, func, addr, word), MAX_BUF);
      assert tx[..6] == tx[..][..6];
      Seal(txmsg_length);
    }

    /** Write multiple coils (function 0x0F): the payload is copied as it is. */
    method BuildRequest0F(unit_id: bv8, func: bv8, addr: bv16, num_of_points: bv16, byte_size: bv8,
                          data: array<bv8>) returns (txmsg_length: nat)
      requires Valid() && data != tx && byte_size as int <= data.Length
      modifies tx
      ensures txmsg_length == 9 + byte_size as int
      ensures tx[..txmsg_length] ==
              Frame(Header(unit_id, func, addr, num_of_points) + [byte_size] + data[..byte_size as int])
    {
      hide Header, Frame, Padded;
      var n := byte_size as int;
      txmsg_length := 9 + n;
      ghost var h := Header(unit_id, func, addr, num_of_points);
      PutHeader(unit_id, func, addr, num_of_points);
      PaddedPut(h, byte_size, MAX_BUF);
      tx[6] := byte_size;
      PaddedFront(h + [byte_size], MAX_BUF);
      assert tx[..7] == tx[..][..7];
      PutBytes(tx, 7, data, n);
      assert tx[..7 + n] == tx[..][..7 + n] == h + [byte_size] + data[..n];
      Seal(txmsg_length);
    }

    /** Sealing a buffer that holds `h` and a payload cut or filled up to the frame length. */
    method SealPadded(ghost h: seq<bv8>, ghost payload: seq<bv8>, length: nat)
      requires Valid() && |h| + 2 <= length <= MAX_BUF
      requires tx[..] == Padded(h + payload, MAX_BUF)
      modifies tx
      ensures tx[..length] == Frame(h + Padded(payload, length - 2 - |h|))
    {
      hide Frame, Padded;
      PaddedPrefix(h, payload, length - 2 - |h|, MAX_BUF);
      assert tx[..length - 2] == tx[..][..length - 2];
      Seal(length);
    }

    /** The register loop of function 0x10, behind the seven bytes `h`. */
    method PutRegisters(ghost h: seq<bv8>, num_of_points: bv16, data: array<bv16>)
      requires Valid() && |h| == 7
      requires 7 + 2 * Signed(num_of_points) <= MAX_BUF && Signed(num_of_points) <= data.Length
      requires tx[..] == Padded(h, MAX_BUF)
      modifies tx
      ensures tx[..] == Padded(h + WireWords(data[..Points(num_of_points)]), MAX_BUF)
    {
      hide Signed, Htons, WireWords, HighByte, LowByte, Padded;
      var i := 0;
      NoWords(h);
      assert data[..0] == [];
      while i < Signed(num_of_points)
        invariant 0 <= i <= Points(num_of_points)
        invariant tx[..] == Padded(h + WireWords(data[..i]), MAX_BUF)
      {
        var stemp := Htons(data[i]);
        WordBytes(data[i]);
        NextWord(h, data[..i], data[i]);
        assert data[..i + 1] == data[..i] + [data[i]];
        PaddedPutWord(h + WireWords(data[..i]), HighByte(data[i]), LowByte(data[i]), MAX_BUF);
        PutWord(tx, 7 + 2 * i, stemp);
        i := i + 1;
      }
    }

    /**
     Write multiple registers (function 0x10).  The register loop runs over the number of
     points while the frame is cut, or filled up with zeros, at the byte size given.
     */
    method BuildRequest10(unit_id: bv8, func: bv8, addr: bv16, num_of_points: bv16, byte_size: bv8,
                          data: array<bv16>) returns (txmsg_length: nat)
      requires Valid() && 7 + 2 * Signed(num_of_points) <= MAX_BUF && Signed(num_of_points) <= data.Length
      modifies tx
      ensures txmsg_length == 9 + byte_size as int
      ensures tx[..txmsg_length] ==
              Frame(Header(unit_id, func, addr, num_of_points) + [byte_size] +
                    Padded(WireWords(data[..Points(num_of_points)]), byte_size as int))
    {
      hide Signed, Header, Frame, WireWords, Padded;
      txmsg_length := 9 + byte_size as int;
      ghost var h := Header(unit_id, func, addr, num_of_points) + [byte_size];
      PutHeader(unit_id, func, addr, num_of_points);
      PaddedPut(Header(unit_id, func, addr, num_of_points), byte_size, MAX_BUF);
      tx[6] := byte_size;
      PutRegisters(h, num_of_points, data);
      SealPadded(h, WireWords(data[..Points(num_of_points)]), txmsg_length);
    }
  }

  lemma NoWords(h: seq<bv8>)
    ensures h + WireWords([]) == h
  {
  }

  lemma NextWord(h: seq<bv8>, s: seq<bv16>, w: bv16)
    ensures h + WireWords(s + [w]) == h + WireWords(s) + [HighByte(w), LowByte(w)]
  {
    assert (s + [w])[..|s|] == s;
  }

  // ---------------------------------------------------------------- checking

  lemma LittleEndianInjective(a: bv8, b: bv8, c: bv8, d: bv8)
    ensures LittleEndian(a, b) == LittleEndian(c, d) <==> a == c && b == d
  {
    BytesOfWord(a, b);
    BytesOfWord(c, d);
  }

  /** The server's test of a received message; a lone byte is read past its start and not modelled. */
  method CheckRxMsg(rx_buf: array<bv8>, rxmsg_length: nat) returns (result: int)
    requires rxmsg_length == 0 || 2 <= rxmsg_length <= rx_buf.Length
    requires rxmsg_length <= MAX_BUF
    ensures result == if rxmsg_length > 0 && Accepts(rx_buf[..rxmsg_length]) then 1 else 0
  {
    hide LowByte, HighByte;
    if rxmsg_length == 0 {
      return 0;
    }
    var n := rxmsg_length - 2;
    var rxmsg_crc := LittleEndian(rx_buf[n], rx_buf[n + 1]);
    var hi := Crc16Hi(rx_buf, n);
    var lo := Crc16Lo(rx_buf, n);
    var temp_crc := LittleEndian(hi, lo);
    LittleEndianInjective(rx_buf[n], rx_buf[n + 1], hi, lo);
    assert rx_buf[..rxmsg_length][..n] == rx_buf[..n];
    result := if rxmsg_crc == temp_crc then 1 else 0;
  }

  /** The client's test differs only in returning -1 for a bad checksum. */
  method CheckRxReadMsg(rx_buf: array<bv8>, rxmsg_length: nat) returns (result: int)
    requires rxmsg_length == 0 || 2 <= rxmsg_length <= rx_buf.Length
    requires rxmsg_length <= MAX_BUF
    ensures result == if rxmsg_length == 0 then 0 else if Accepts(rx_buf[..rxmsg_length]) then 1 else -1
  {
    result := CheckRxMsg(rx_buf, rxmsg_length);
    if rxmsg_length != 0 && result == 0 {
      result := -1;
    }
  }
}
