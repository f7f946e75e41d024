/**
 Requests from end to end: the client builds one, the line delivers it with some bits flipped,
 the server checks what came and extracts the fields.  The flipped bits are a parameter.
 */
module RequestDelivery {
  import opened BitSerial
  import opened ErrorDetection
  import opened Crc16
  import opened FrameErrors
  import opened Words
  import opened ModbusFrame
  import opened ModbusServer

  /** Whether the server takes a request: exactly when the noise divides out. */
  predicate Taken(noise: seq<bv8>) {
    Register(0, noise) == 0
  }

  /** Without noise a request is taken; one to three flipped bits never are. */
  lemma QuietOrRejected(body: seq<bv8>, noise: seq<bv8>)
    requires |noise| == |body| + 2
    ensures Accepts(XorBytes(Frame(body), noise)) <==> Taken(noise)
    ensures Ones(Bits(noise)) == 0 ==> Taken(noise) && XorBytes(Frame(body), noise) == Frame(body)
    ensures |noise| <= MAX_BUF && 1 <= Ones(Bits(noise)) <= 3 ==> !Taken(noise)
  {
    hide Accepts, Frame, XorBytes, BitErrors, Ones, Bits, Register;
    var f := Frame(body);
    FrameAccepted(body);
    PatternAcceptedIff(f, noise);
    SameIffNoOnes(f, XorBytes(f, noise));
    if Accepts(XorBytes(f, noise)) && f != XorBytes(f, noise) {
      AcceptedFramesApart(f, XorBytes(f, noise));
    }
  }

  /** The line: what was sent arrives with the bits of `noise` flipped. */
  method Deliver(tx: array<bv8>, length: nat, noise: seq<bv8>, rx_buf: array<bv8>)
    requires |noise| == length <= tx.Length && length <= rx_buf.Length && tx != rx_buf
    modifies rx_buf
    ensures rx_buf[..length] == XorBytes(tx[..length], noise)
  {
    hide XorByte;
    forall i | 0 <= i < length {
      rx_buf[i] := XorByte(tx[i], noise[i]);
    }
  }

  /** Delivery and the server's check. */
  method Transmit(tx: array<bv8>, ghost body: seq<bv8>, length: nat, noise: seq<bv8>, rx_buf: array<bv8>)
    returns (result: int)
    requires |noise| == length == |body| + 2 && length <= MAX_BUF
    requires tx.Length == rx_buf.Length == MAX_BUF && tx != rx_buf
    requires tx[..length] == Frame(body)
    modifies rx_buf
    ensures result == if Taken(noise) then 1 else 0
    ensures Ones(Bits(noise)) == 0 ==> Taken(noise) && rx_buf[..length] == Frame(body)
    ensures 1 <= Ones(Bits(noise)) <= 3 ==> !Taken(noise)
  {
    hide Accepts, Frame, XorBytes, Ones, Bits, Taken;
    Deliver(tx, length, noise, rx_buf);
    QuietOrRejected(body, noise);
    result := CheckRxMsg(rx_buf, length);
  }

  lemma WordOfPrefix(f: seq<bv8>, n: nat, i: nat)
    requires i + 1 < n <= |f|
    ensures WordAt(f, i) == WordAt(f[..n], i)
  {
  }

  /** The fields at the front of a received request. */
  predicate Fields(f: seq<bv8>, id: bv8, func: bv8, addr: bv16, word: bv16) {
    |f| >= 6 && f[0] == id && f[1] == func && WordAt(f, 2) == addr && WordAt(f, 4) == word
  }

  lemma FieldsOfPrefix(f: seq<bv8>, n: nat, id: bv8, func: bv8, addr: bv16, word: bv16)
    requires 6 <= n <= |f| && Fields(f[..n], id, func, addr, word)
    ensures Fields(f, id, func, addr, word)
  {
    hide WordAt;
    WordOfPrefix(f, n, 2);
    WordOfPrefix(f, n, 4);
  }

  lemma RequestFields(id: bv8, func: bv8, addr: bv16, word: bv16)
    ensures Fields(Frame(Header(id, func, addr, word)), id, func, addr, word)
  {
    hide WordAt, Frame, Header, Accepts;
    RoundTripRequest(id, func, addr, word);
  }

  /** A read request or single write on its way: built, delivered, checked. */
  method SendRequest(c: Client, rx_buf: array<bv8>, noise: seq<bv8>, unit_id: bv8, func: bv8, addr: bv16,
                     word: bv16) returns (result: int)
    requires c.Valid() && rx_buf.Length == MAX_BUF && rx_buf != c.tx && |noise| == 8
    modifies c.tx, rx_buf
    ensures result == if Taken(noise) then 1 else 0
    ensures Ones(Bits(noise)) == 0 ==> Taken(noise) && Fields(rx_buf[..], unit_id, func, addr, word)
    ensures 1 <= Ones(Bits(noise)) <= 3 ==> !Taken(noise)
  {
    hide Frame, Header, Fields, Taken, Ones, Bits;
    var length := c.BuildRequest(unit_id, func, addr, word);
    result := Transmit(c.tx, Header(unit_id, func, addr, word), length, noise, rx_buf);
    RequestFields(unit_id, func, addr, word);
    if Ones(Bits(noise)) == 0 {
      assert rx_buf[..][..length] == rx_buf[..length];
      FieldsOfPrefix(rx_buf[..], length, unit_id, func, addr, word);
    }
  }

  /** Functions 1 and 2, client to server. */
  method Deliver0102(c: Client, rx_buf: array<bv8>, noise: seq<bv8>, unit_id: bv8, func: bv8, addr: bv16,
                     num_of_points: bv16)
    returns (result: int, slave_addr: bv8, memory_addr: bv16, points: bv16, byte_count: bv8)
    requires c.Valid() && rx_buf.Length == MAX_BUF && rx_buf != c.tx && |noise| == 8
    modifies c.tx, rx_buf
    ensures result == if Taken(noise) then 1 else 0
    ensures Ones(Bits(noise)) == 0 ==>
              && Taken(noise) && slave_addr == unit_id && rx_buf[1] == func
              && memory_addr == addr && points == num_of_points
              && byte_count as int == ByteSize(Signed(num_of_points)) % 256
    ensures Ones(Bits(noise)) == 0 && HighByte(num_of_points) < 0x80 ==>
              byte_count as int == ((256 * HighByte(num_of_points) as int + LowByte(num_of_points) as int + 7) / 8) % 256
    ensures 1 <= Ones(Bits(noise)) <= 3 ==> !Taken(noise)
  {
    hide WordAt, Taken, Ones, Bits, ByteSize, Signed, HighByte, LowByte;
    result := SendRequest(c, rx_buf, noise, unit_id, func, addr, num_of_points);
    if result == 1 {
      slave_addr, memory_addr, points, byte_count := GetValues0102(rx_buf);
      WireWordValue(rx_buf[..], 4);
    } else {
      slave_addr, memory_addr, points, byte_count := 0, 0, 0, 0;
    }
  }

  /** Functions 3 and 4, client to server. */
  method Deliver0304(c: Client, rx_buf: array<bv8>, noise: seq<bv8>, unit_id: bv8, func: bv8, addr: bv16,
                     num_of_points: bv16)
    returns (result: int, slave_addr: bv8, memory_addr: bv16, points: bv16, byte_count: bv8)
    requires c.Valid() && rx_buf.Length == MAX_BUF && rx_buf != c.tx && |noise| == 8
    modifies c.tx, rx_buf
    ensures result == if Taken(noise) then 1 else 0
    ensures Ones(Bits(noise)) == 0 ==>
              && Taken(noise) && slave_addr == unit_id && rx_buf[1] == func
              && memory_addr == addr && points == num_of_points
              && byte_count as int == (2 * LowByte(num_of_points) as int) % 256
    ensures 1 <= Ones(Bits(noise)) <= 3 ==> !Taken(noise)
  {
    hide WordAt, Taken, Ones, Bits, Signed, HighByte, LowByte;
    result := SendRequest(c, rx_buf, noise, unit_id, func, addr, num_of_points);
    if result == 1 {
      slave_addr, memory_addr, points, byte_count := GetValues0304(rx_buf);
      WireWordValue(rx_buf[..], 4);
    } else {
      slave_addr, memory_addr, points, byte_count := 0, 0, 0, 0;
    }
  }

  /** Functions 5 and 6, client to server. */
  method Deliver0506(c: Client, rx_buf: array<bv8>, noise: seq<bv8>, unit_id: bv8, func: bv8, addr: bv16, value: bv16)
    returns (result: int, slave_addr: bv8, memory_addr: bv16, receive_data: bv16)
    requires c.Valid() && rx_buf.Length == MAX_BUF && rx_buf != c.tx && |noise| == 8
    modifies c.tx, rx_buf
    ensures result == if Taken(noise) then 1 else 0
    ensures Ones(Bits(noise)) == 0 ==>
              && Taken(noise) && slave_addr == unit_id && rx_buf[1] == func
              && memory_addr == addr && receive_data == value
    ensures 1 <= Ones(Bits(noise)) <= 3 ==> !Taken(noise)
  {
    hide WordAt, Taken, Ones, Bits;
    result := SendRequest(c, rx_buf, noise, unit_id, func, addr, value);
    if result == 1 {
      slave_addr, memory_addr, receive_data := GetValues0506(rx_buf);
    } else {
      slave_addr, memory_addr, receive_data := 0, 0, 0;
    }
  }

  /** The body of a request with a payload: a header, the byte size, the payload. */
  function PayloadBody(id: bv8, func: bv8, addr: bv16, num: bv16, byte_size: bv8, payload: seq<bv8>): (b: seq<bv8>)
    ensures |b| == 7 + |payload|
  {
    Header(id, func, addr, num) + [byte_size] + payload
  }

  lemma SliceOfPrefix(f: seq<bv8>, n: nat, i: nat, j: nat)
    requires i <= j <= n <= |f|
    ensures f[..n][i..j] == f[i..j]
  {
  }

  lemma PayloadFrameFields(id: bv8, func: bv8, addr: bv16, num: bv16, byte_size: bv8, payload: seq<bv8>)
    requires |payload| == byte_size as int
    ensures var f := Frame(PayloadBody(id, func, addr, num, byte_size, payload));
            Fields(f, id, func, addr, num) && f[6] == byte_size && f[7..7 + |payload|] == payload
  {
    hide WordAt, Header, Accepts, Frame;
    RoundTrip0F(id, func, addr, num, byte_size, payload);
    RoundTripHeader(id, func, addr, num, [byte_size] + payload);
    assert Header(id, func, addr, num) + [byte_size] + payload == Header(id, func, addr, num) + ([byte_size] + payload);
  }

  lemma PayloadFields(f: seq<bv8>, id: bv8, func: bv8, addr: bv16, num: bv16, byte_size: bv8, payload: seq<bv8>)
    requires |payload| == byte_size as int && 9 + |payload| <= |f|
    requires f[..9 + |payload|] == Frame(PayloadBody(id, func, addr, num, byte_size, payload))
    ensures Fields(f, id, func, addr, num) && f[6] == byte_size && f[7..7 + |payload|] == payload
  {
    hide WordAt, Fields, Frame, PayloadBody;
    var n := 9 + |payload|;
    PayloadFrameFields(id, func, addr, num, byte_size, payload);
    FieldsOfPrefix(f, n, id, func, addr, num);
    SliceOfPrefix(f, n, 7, 7 + |payload|);
    assert f[6] == f[..n][6];
  }

  lemma Body0FIsBuilt(id: bv8, func: bv8, addr: bv16, num: bv16, byte_size: bv8, payload: seq<bv8>)
    ensures PayloadBody(id, func, addr, num, byte_size, payload) ==
            Header(id, func, addr, num) + [byte_size] + payload
  {
  }

  /** A coil write on its way: built, delivered, checked. */
  method Send0F(c: Client, rx_buf: array<bv8>, noise: seq<bv8>, unit_id: bv8, func: bv8, addr: bv16,
                num_of_points: bv16, byte_size: bv8, data: array<bv8>) returns (result: int)
    requires c.Valid() && rx_buf.Length == MAX_BUF && |noise| == 9 + byte_size as int
    requires byte_size as int <= data.Length && data != c.tx && data != rx_buf && rx_buf != c.tx
    modifies c.tx, rx_buf
    ensures result == if Taken(noise) then 1 else 0
    ensures Ones(Bits(noise)) == 0 ==>
              && Taken(noise) && Fields(rx_buf[..], unit_id, func, addr, num_of_points) && rx_buf[6] == byte_size
              && rx_buf[7..7 + byte_size as int] == data[..byte_size as int]
    ensures 1 <= Ones(Bits(noise)) <= 3 ==> !Taken(noise)
  {
    hide WordAt, Taken, Ones, Bits, Frame, Fields, PayloadBody;
    ghost var payload := data[..byte_size as int];
    ghost var body := PayloadBody(unit_id, func, addr, num_of_points, byte_size, payload);
    Body0FIsBuilt(unit_id, func, addr, num_of_points, byte_size, payload);
    var length := c.BuildRequest0F(unit_id, func, addr, num_of_points, byte_size, data);
    result := Transmit(c.tx, body, length, noise, rx_buf);
    if Ones(Bits(noise)) == 0 {
      assert rx_buf[..][..length] == rx_buf[..length];
      PayloadFields(rx_buf[..], unit_id, func, addr, num_of_points, byte_size, payload);
    }
  }

  /** Function 0x0F, client to server. */
  method Deliver0F(c: Client, rx_buf: array<bv8>, noise: seq<bv8>, unit_id: bv8, func: bv8, addr: bv16,
                   num_of_points: bv16, byte_size: bv8, data: array<bv8>, receive_data: array<bv8>)
    returns (result: int, slave_addr: bv8, memory_addr: bv16, points: bv16, byte_count: bv8)
    requires c.Valid() && rx_buf.Length == MAX_BUF && |noise| == 9 + byte_size as int
    requires byte_size as int <= data.Length && receive_data.Length >= 255
    requires data != c.tx && data != rx_buf && rx_buf != c.tx
    requires receive_data != rx_buf && receive_data != c.tx && receive_data != data
    modifies c.tx, rx_buf, receive_data
    ensures result == if Taken(noise) then 1 else 0
    ensures Ones(Bits(noise)) == 0 ==>
              && Taken(noise) && slave_addr == unit_id && rx_buf[1] == func
              && memory_addr == addr && points == num_of_points && byte_count == byte_size
              && receive_data[..] == data[..byte_size as int] + old(receive_data[byte_size as int..])
    ensures 1 <= Ones(Bits(noise)) <= 3 ==> !Taken(noise)
    ensures !Taken(noise) ==> receive_data[..] == old(receive_data[..])
  {
    hide WordAt, Taken, Ones, Bits;
    result := Send0F(c, rx_buf, noise, unit_id, func, addr, num_of_points, byte_size, data);
    if result == 1 {
      slave_addr, memory_addr, points, byte_count := GetValues0F(rx_buf, receive_data);
    } else {
      slave_addr, memory_addr, points, byte_count := 0, 0, 0, 0;
    }
  }

  lemma ReceivedOfPrefix(f: seq<bv8>, n: nat, byte_count: nat)
    requires 7 + 2 * ((byte_count + 1) / 2) <= n <= |f|
    ensures ReceivedWords(f, byte_count) == ReceivedWords(f[..n], byte_count)
  {
    hide WordAt;
    forall k | 0 <= k < (byte_count + 1) / 2
      ensures WordAt(f, 7 + 2 * k) == WordAt(f[..n], 7 + 2 * k)
    {
      WordOfPrefix(f, n, 7 + 2 * k);
    }
  }

  /** When the registers of a request come back: see `RoundTrip10Iff`. */
  predicate PayloadSurvives(id: bv8, func: bv8, addr: bv16, num: bv16, byte_size: bv8, data: seq<bv16>) {
    || byte_size as int == 2 * |data|
    || (byte_size as int == 2 * |data| - 1 &&
        ChecksumCompletes(Body10(id, func, addr, num, byte_size, data), data))
  }

  lemma RegistersComeBackIff(f: seq<bv8>, id: bv8, func: bv8, addr: bv16, num: bv16, byte_size: bv8, data: seq<bv16>)
    requires 9 + byte_size as int <= |f|
    requires f[..9 + byte_size as int] == Frame(Body10(id, func, addr, num, byte_size, data))
    ensures Fields(f, id, func, addr, num) && f[6] == byte_size
    ensures ReceivedWords(f, byte_size as int) == data <==> PayloadSurvives(id, func, addr, num, byte_size, data)
  {
    hide WordAt, Frame, Header, ReceivedWords, ChecksumCompletes, Fields;
    PayloadFields(f, id, func, addr, num, byte_size, Padded(WireWords(data), byte_size as int));
    ReceivedOfPrefix(f, 9 + byte_size as int, byte_size as int);
    RoundTrip10Iff(id, func, addr, num, byte_size, data);
  }

  /** A register write on its way: built, delivered, checked. */
  method Send10(c: Client, rx_buf: array<bv8>, noise: seq<bv8>, unit_id: bv8, func: bv8, addr: bv16,
                num_of_points: bv16, byte_size: bv8, data: array<bv16>) returns (result: int)
    requires c.Valid() && rx_buf.Length == MAX_BUF && |noise| == 9 + byte_size as int && rx_buf != c.tx
    requires 7 + 2 * Signed(num_of_points) <= MAX_BUF && Signed(num_of_points) <= data.Length
    modifies c.tx, rx_buf
    ensures result == if Taken(noise) then 1 else 0
    ensures Ones(Bits(noise)) == 0 ==>
              && Taken(noise) && Fields(rx_buf[..], unit_id, func, addr, num_of_points) && rx_buf[6] == byte_size
    ensures Ones(Bits(noise)) == 0 ==>
              var sent := data[..Points(num_of_points)];
              ReceivedWords(rx_buf[..], byte_size as int) == sent <==>
              PayloadSurvives(unit_id, func, addr, num_of_points, byte_size, sent)
    ensures 1 <= Ones(Bits(noise)) <= 3 ==> !Taken(noise)
  {
    hide WordAt, Taken, Ones, Bits, Frame, Signed, PayloadSurvives, ReceivedWords, Fields, Body10;
    ghost var sent := data[..Points(num_of_points)];
    Body10IsBuilt(unit_id, func, addr, num_of_points, byte_size, sent);
    var length := c.BuildRequest10(unit_id, func, addr, num_of_points, byte_size, data);
    result := Transmit(c.tx, Body10(unit_id, func, addr, num_of_points, byte_size, sent), length, noise, rx_buf);
    if Ones(Bits(noise)) == 0 {
      assert rx_buf[..][..length] == rx_buf[..length];
      RegistersComeBackIff(rx_buf[..], unit_id, func, addr, num_of_points, byte_size, sent);
    }
  }

  lemma Body10IsBuilt(id: bv8, func: bv8, addr: bv16, num: bv16, byte_size: bv8, data: seq<bv16>)
    ensures Body10(id, func, addr, num, byte_size, data) ==
            Header(id, func, addr, num) + [byte_size] + Padded(WireWords(data), byte_size as int)
  {
  }

  /** Function 0x10, client to server. */
  method Deliver10(c: Client, rx_buf: array<bv8>, noise: seq<bv8>, unit_id: bv8, func: bv8, addr: bv16,
                   num_of_points: bv16, byte_size: bv8, data: array<bv16>, receive_data: array<bv16>)
    returns (result: int, slave_addr: bv8, memory_addr: bv16, points: bv16, byte_count: bv8)
    requires c.Valid() && rx_buf.Length == MAX_BUF && |noise| == 9 + byte_size as int
    requires 7 + 2 * Signed(num_of_points) <= MAX_BUF && Signed(num_of_points) <= data.Length
    requires rx_buf != c.tx && receive_data.Length >= 128 && receive_data != data
    modifies c.tx, rx_buf, receive_data
    ensures result == if Taken(noise) then 1 else 0
    ensures Ones(Bits(noise)) == 0 ==>
              && Taken(noise) && slave_addr == unit_id && rx_buf[1] == func
              && memory_addr == addr && points == num_of_points && byte_count == byte_size
    ensures Ones(Bits(noise)) == 0 ==>
              var n, sent := (byte_size as int + 1) / 2, data[..Points(num_of_points)];
              && receive_data[n..] == old(receive_data[n..])
              && (receive_data[..n] == sent <==>
                  PayloadSurvives(unit_id, func, addr, num_of_points, byte_size, sent))
    ensures 1 <= Ones(Bits(noise)) <= 3 ==> !Taken(noise)
    ensures !Taken(noise) ==> receive_data[..] == old(receive_data[..])
  {
    hide WordAt, Taken, Ones, Bits, Signed, PayloadSurvives, ReceivedWords;
    result := Send10(c, rx_buf, noise, unit_id, func, addr, num_of_points, byte_size, data);
    if result == 1 {
      slave_addr, memory_addr, points, byte_count := GetValues10(rx_buf, receive_data);
    } else {
      slave_addr, memory_addr, points, byte_count := 0, 0, 0, 0;
    }
  }
}
