/**
 The client's reads as whole exchanges: build and send a request, receive a reply, check it,
 decode it.  Whether the send succeeds and what the network delivers are parameters.
 */
module ClientReads {
  import Coils
  import opened BitSerial
  import opened Crc16
  import opened Words
  import opened ModbusFrame

  /** The registers that a reply buffer carries from its fourth byte on. */
  function DecodedWords(rx: seq<bv8>, n: nat): (w: seq<bv16>)
    requires 3 + 2 * n <= |rx|
    ensures |w| == n
  {
    seq(n, k requires 0 <= k < n => WordAt(rx, 3 + 2 * k))
  }

  lemma DecodedWord(rx: seq<bv8>, n: nat, k: nat)
    requires 3 + 2 * n <= |rx| && k < n
    ensures DecodedWords(rx, n)[k] == WordAt(rx, 3 + 2 * k)
  {
  }

  /** Cell k holds the two's complement big-endian value of payload bytes 2k and 2k + 1. */
  lemma DecodedValue(rx: seq<bv8>, n: nat, k: nat)
    requires 3 + 2 * n <= |rx| && k < n
    ensures Signed(DecodedWords(rx, n)[k]) ==
            256 * rx[3 + 2 * k] as int + rx[4 + 2 * k] as int - (if rx[3 + 2 * k] < 0x80 then 0 else 65536)
  {
    hide Signed;
    SignedBigEndian(rx[3 + 2 * k], rx[4 + 2 * k]);
  }

  /** `Ethernet_Modbus_Data_Analyze_0304`: bytes are swapped pairwise into the cells. */
  method DataAnalyze0304(rx: array<bv8>, num_of_points: bv16, data: array<bv16>)
    requires 3 + 2 * Signed(num_of_points) <= rx.Length && Signed(num_of_points) <= data.Length && rx.Length >= 3
    modifies data
    ensures data[..] == DecodedWords(rx[..], Points(num_of_points)) + old(data[Points(num_of_points)..])
  {
    hide Signed, SetByte, LittleEndian, DecodedWords;
    var byte_cnt := Signed(num_of_points) * 2;
    ghost var w := DecodedWords(rx[..], Points(num_of_points));
    var i := 0;
    ghost var j := 0;
    while i < byte_cnt
      invariant i == 2 * j && j <= |w|
      invariant data[..] == w[..j] + old(data[j..])
    {
      DecodedWord(rx[..], Points(num_of_points), j);
      SwapPair(data, i, rx, 3 + i);
      NextStored(w, old(data[..]), j);
      i := i + 1;
      i := i + 1;
      j := j + 1;
    }
    assert w[..j] == w;
  }

  /** The loop body: byte i + 1 of the cells receives the first payload byte, byte i the second. */
  method SwapPair(data: array<bv16>, i: nat, rx: array<bv8>, at: nat)
    requires i % 2 == 0 && i / 2 < data.Length && at + 1 < rx.Length
    modifies data
    ensures data[..] == old(data[..])[i / 2 := WordAt(rx[..], at)]
  {
    hide SetByte, LittleEndian;
    SetBothBytes(data[i / 2], rx[at + 1], rx[at]);
    PokeByte(data, i + 1, rx[at]);
    PokeByte(data, i, rx[at + 1]);
  }

  /** `Ethernet_Modbus_Data_Analyze_0102`: the bytes are copied as they came, eight coils in each. */
  method DataAnalyze0102(rx: array<bv8>, num_of_points: bv16, data: array<bv8>)
    requires 3 + Coils.BytesVisited(num_of_points) <= rx.Length && data != rx
    requires Coils.BytesVisited(num_of_points) <= data.Length
    modifies data
    ensures data[..] == CoilBytes(rx[..], num_of_points) + old(data[Coils.BytesVisited(num_of_points)..])
    ensures forall i | 0 <= i < Coils.BytesVisited(num_of_points) :: data[i] == rx[3 + i]
  {
    hide Signed, ByteSize;
    var byte_cnt := ByteSize(Signed(num_of_points));
    ghost var w := CoilBytes(rx[..], num_of_points);
    var i := 0;
    while i < byte_cnt
      invariant 0 <= i <= |w|
      invariant data[..] == w[..i] + old(data[i..])
    {
      NextStored(w, old(data[..]), i);
      data[i] := rx[3 + i];
      i := i + 1;
    }
    assert w[..i] == w;
    CopiedBytes(data[..], w, old(data[i..]));
  }

  lemma CopiedBytes(d: seq<bv8>, w: seq<bv8>, rest: seq<bv8>)
    requires d == w + rest
    ensures forall i | 0 <= i < |w| :: d[i] == w[i]
  {
  }

  /** The bytes of coils that a reply buffer carries from its fourth byte on. */
  function CoilBytes(rx: seq<bv8>, num_of_points: bv16): (b: seq<bv8>)
    requires 3 + Coils.BytesVisited(num_of_points) <= |rx|
    ensures |b| == Coils.BytesVisited(num_of_points)
  {
    rx[3..3 + Coils.BytesVisited(num_of_points)]
  }

  // ---------------------------------------------------------------- receiving

  /** What a receive call delivers; the length it returns is -1 when it fails. */
  datatype Reception = Failed | Received(bytes: seq<bv8>)

  function Bytes(r: Reception): (b: seq<bv8>)
    ensures r.Failed? ==> b == []
  {
    if r.Failed? then [] else r.bytes
  }

  function Length(r: Reception): int {
    if r.Failed? then -1 else |r.bytes|
  }

  /** The receive buffer after a reception. */
  function Buffered(r: Reception, before: seq<bv8>): (b: seq<bv8>)
    requires |Bytes(r)| <= |before|
    ensures |b| == |before|
  {
    Bytes(r) + before[|Bytes(r)|..]
  }

  /** `recv` into the receive buffer. */
  method Receive(rx: array<bv8>, r: Reception) returns (rxmsg_length: int)
    requires |Bytes(r)| <= rx.Length
    modifies rx
    ensures rxmsg_length == Length(r)
    ensures rx[..] == Buffered(r, old(rx[..]))
  {
    var reply := Bytes(r);
    forall i | 0 <= i < |reply| {
      rx[i] := reply[i];
    }
    rxmsg_length := Length(r);
  }

  /** The verdict on a reception, where the test stays within the buffer. */
  predicate Passes(r: Reception, outside: bool) {
    if Length(r) < 0 || Length(r) == 1 then outside else Length(r) > 0 && Accepts(Bytes(r))
  }

  /** A reply of two bytes or more passes exactly when dividing all of it leaves nothing. */
  lemma PassesIff(r: Reception, outside: bool)
    requires r.Received? && |r.bytes| >= 2
    ensures Passes(r, outside) <==> Register(INITIAL, r.bytes) == 0
  {
    hide Accepts, Register;
    AcceptsIffResidueZero(r.bytes);
  }

  /** Receptions too short to carry a checksum. */
  lemma PassesShort(r: Reception, outside: bool)
    requires r.Failed? || |r.bytes| <= 1
    ensures Passes(r, outside) <==> outside && r != Received([])
  {
  }

  /**
   Receiving and checking.  After a failed receive and for a single byte the test compares
   memory outside the buffer; what it finds there is the parameter `outside`.
   */
  method ReceiveReply(rx: array<bv8>, r: Reception, outside: bool) returns (rxmsg_length: int, ok: int)
    requires |Bytes(r)| <= MAX_BUF == rx.Length
    modifies rx
    ensures rxmsg_length == Length(r) && rx[..] == Buffered(r, old(rx[..]))
    ensures ok == if Length(r) == 0 then 0 else if Passes(r, outside) then 1 else -1
  {
    hide Accepts;
    rxmsg_length := Receive(rx, r);
    assert rx[..|Bytes(r)|] == Bytes(r);
    if rxmsg_length < 0 || rxmsg_length == 1 {
      ok := if outside then 1 else -1;
    } else {
      ok := CheckRxReadMsg(rx, rxmsg_length);
    }
  }

  /** `Ethernet_Mod_Buf_Clear`. */
  method ClearBuffers(c: Client)
    requires c.Valid()
    modifies c.tx, c.rx
    ensures c.tx[..] == c.rx[..] == Padded([], MAX_BUF)
  {
    hide Padded;
    Clear(c.tx);
    Clear(c.rx);
    ClearedIsPadded(c.tx[..], MAX_BUF);
    ClearedIsPadded(c.rx[..], MAX_BUF);
  }

  // ---------------------------------------------------------------- the exchanges

  /**
   The register read (functions 3 and 4).  Only a reply that passes touches the caller's
   registers; they are decoded from the receive buffer, and both buffers are cleared after
   every receive, even a failed one.
   */
  method Request0304(c: Client, sent: bool, r: Reception, outside: bool, unit_id: bv8, func: bv8, addr: bv16,
                     num_of_points: bv16, data: array<bv16>) returns (result: int)
    requires c.Valid() && |Bytes(r)| <= MAX_BUF
    requires 3 + 2 * Signed(num_of_points) <= MAX_BUF && Signed(num_of_points) <= data.Length
    modifies c.tx, c.rx, data
    ensures result == if sent && Passes(r, outside) then 1 else 0
    ensures sent && r.Received? && |r.bytes| >= 2 ==> (result == 1 <==> Register(INITIAL, r.bytes) == 0)
    ensures result == 1 && r.Received? ==>
              forall k | 0 <= k < Points(num_of_points) && 5 + 2 * k <= |r.bytes| ::
                data[k] == WordAt(r.bytes, 3 + 2 * k)
    ensures data[..] == if result == 1
                        then DecodedWords(Buffered(r, old(c.rx[..])), Points(num_of_points)) +
                             old(data[Points(num_of_points)..])
                        else old(data[..])
    ensures sent ==> c.tx[..] == c.rx[..] == Padded([], MAX_BUF)
    ensures !sent ==> c.tx[..8] == Frame(Header(unit_id, func, addr, num_of_points)) && c.rx[..] == old(c.rx[..])
  {
    hide Signed, Frame, Header, DecodedWords, Accepts, Padded, Passes, Buffered, Register, WordAt;
    var txmsg_length := c.BuildRequest(unit_id, func, addr, num_of_points);
    if !sent {
      return 0;
    }
    var rxmsg_length, ok := ReceiveReply(c.rx, r, outside);
    EmptyFails(r, outside);
    ReplyVerdict(r, outside);
    if ok == 1 {
      DataAnalyze0304(c.rx, num_of_points, data);
      RepliedWords(r, old(c.rx[..]), Points(num_of_points));
      result := 1;
    } else {
      result := 0;
    }
    ClearBuffers(c);
  }

  lemma ReplyVerdict(r: Reception, outside: bool)
    ensures r.Received? && |r.bytes| >= 2 ==> (Passes(r, outside) <==> Register(INITIAL, r.bytes) == 0)
  {
    if r.Received? && |r.bytes| >= 2 {
      PassesIff(r, outside);
    }
  }

  /** What lies within the reply is decoded from the reply. */
  lemma RepliedWords(r: Reception, before: seq<bv8>, n: nat)
    requires |Bytes(r)| <= |before| && 3 + 2 * n <= |before|
    ensures forall k | 0 <= k < n && 5 + 2 * k <= |Bytes(r)| ::
              DecodedWords(Buffered(r, before), n)[k] == WordAt(Bytes(r), 3 + 2 * k)
  {
    hide BigEndian;
  }

  lemma EmptyFails(r: Reception, outside: bool)
    ensures Length(r) == 0 ==> !Passes(r, outside)
  {
  }

  /**
   The coil read (functions 1 and 2).  Unlike the register read it tells a failed send or
   receive from a bad checksum, and leaves both buffers as they are then.
   */
  method Request0102(c: Client, sent: bool, r: Reception, outside: bool, unit_id: bv8, func: bv8, addr: bv16,
                     num_of_points: bv16, data: array<bv8>) returns (result: int)
    requires c.Valid() && |Bytes(r)| <= MAX_BUF && data != c.rx && data != c.tx
    requires 3 + Coils.BytesVisited(num_of_points) <= MAX_BUF && Coils.BytesVisited(num_of_points) <= data.Length
    modifies c.tx, c.rx, data
    ensures result == if !sent || Length(r) <= 0 then -1 else if Passes(r, outside) then 1 else 0
    ensures !sent || r.Failed? || r.bytes == [] ==> result == -1
    ensures sent && r.Received? && |r.bytes| >= 2 ==>
              result == if Register(INITIAL, r.bytes) == 0 then 1 else 0
    ensures result == 1 ==>
              forall i | 0 <= i < Coils.BytesVisited(num_of_points) && 3 + i < |r.bytes| :: data[i] == r.bytes[3 + i]
    ensures data[..] == if result == 1
                        then CoilBytes(Buffered(r, old(c.rx[..])), num_of_points) +
                             old(data[Coils.BytesVisited(num_of_points)..])
                        else old(data[..])
    ensures result >= 0 ==> c.tx[..] == c.rx[..] == Padded([], MAX_BUF)
    ensures result < 0 ==> c.tx[..8] == Frame(Header(unit_id, func, addr, num_of_points)) && c.rx[..] == old(c.rx[..])
  {
    hide Signed, Frame, Header, CoilBytes, Accepts, Padded, Passes, Register;
    var txmsg_length := c.BuildRequest(unit_id, func, addr, num_of_points);
    if !sent {
      return -1;
    }
    var rxmsg_length, ok := ReceiveReply(c.rx, r, outside);
    ReplyVerdict(r, outside);
    if rxmsg_length <= 0 {
      return -1;
    }
    if ok == 1 {
      DataAnalyze0102(c.rx, num_of_points, data);
      result := 1;
    } else {
      result := 0;
    }
    ClearBuffers(c);
  }
}
