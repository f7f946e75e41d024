/**
 Replies from end to end: a reply with its checksum crosses the line with some bits flipped,
 the client receives, checks and decodes it.  The flipped bits are a parameter.
 */
module ReplyDelivery {
  import Coils
  import opened BitSerial
  import opened ErrorDetection
  import opened Crc16
  import opened Words
  import opened ModbusFrame
  import opened ClientReads
  import opened RequestDelivery

  /** What the client receives. */
  function Arrived(body: seq<bv8>, noise: seq<bv8>): (r: Reception)
    requires |noise| == |body| + 2
    ensures r.Received? && |r.bytes| == |noise|
  {
    Received(XorBytes(Frame(body), noise))
  }

  /** A reply passes exactly when the noise divides out: without noise always, with one to three flipped bits never. */
  lemma ReplyPassesIff(body: seq<bv8>, noise: seq<bv8>, outside: bool)
    requires |noise| == |body| + 2 <= MAX_BUF
    ensures Passes(Arrived(body, noise), outside) <==> Taken(noise)
    ensures Ones(Bits(noise)) == 0 ==> Taken(noise) && Arrived(body, noise).bytes == Frame(body)
    ensures 1 <= Ones(Bits(noise)) <= 3 ==> !Taken(noise)
  {
    hide Accepts, Frame, XorBytes, Ones, Bits, Taken, Register;
    QuietOrRejected(body, noise);
  }

  lemma BodyWord(body: seq<bv8>, i: nat)
    requires i + 1 < |body|
    ensures WordAt(Frame(body), i) == BigEndian(body[i], body[i + 1])
  {
    hide BigEndian, Register, LowByte, HighByte;
  }

  /** The register read, server to client. */
  method Deliver0304(c: Client, body: seq<bv8>, noise: seq<bv8>, unit_id: bv8, func: bv8, addr: bv16,
                     num_of_points: bv16, data: array<bv16>) returns (result: int)
    requires c.Valid() && |noise| == |body| + 2 <= MAX_BUF
    requires 3 + 2 * Signed(num_of_points) <= MAX_BUF && Signed(num_of_points) <= data.Length
    modifies c.tx, c.rx, data
    ensures result == if Taken(noise) then 1 else 0
    ensures Ones(Bits(noise)) == 0 ==>
              result == 1 &&
              forall k | 0 <= k < Points(num_of_points) && 4 + 2 * k < |body| ::
                data[k] == BigEndian(body[3 + 2 * k], body[4 + 2 * k])
    ensures 1 <= Ones(Bits(noise)) <= 3 ==> result == 0
    ensures result == 0 ==> data[..] == old(data[..])
  {
    hide Accepts, Frame, XorBytes, Ones, Bits, Taken, Register, Signed, WordAt, BigEndian, Passes;
    ReplyPassesIff(body, noise, false);
    result := Request0304(c, true, Arrived(body, noise), false, unit_id, func, addr, num_of_points, data);
    if Ones(Bits(noise)) == 0 {
      forall k | 0 <= k < Points(num_of_points) && 4 + 2 * k < |body|
        ensures data[k] == BigEndian(body[3 + 2 * k], body[4 + 2 * k])
      {
        BodyWord(body, 3 + 2 * k);
      }
    }
  }

  /** The coil read, server to client. */
  method Deliver0102(c: Client, body: seq<bv8>, noise: seq<bv8>, unit_id: bv8, func: bv8, addr: bv16,
                     num_of_points: bv16, data: array<bv8>) returns (result: int)
    requires c.Valid() && |noise| == |body| + 2 <= MAX_BUF && data != c.rx && data != c.tx
    requires 3 + Coils.BytesVisited(num_of_points) <= MAX_BUF && Coils.BytesVisited(num_of_points) <= data.Length
    modifies c.tx, c.rx, data
    ensures result == if Taken(noise) then 1 else 0
    ensures Ones(Bits(noise)) == 0 ==>
              result == 1 &&
              forall i | 0 <= i < Coils.BytesVisited(num_of_points) && 3 + i < |body| :: data[i] == body[3 + i]
    ensures 1 <= Ones(Bits(noise)) <= 3 ==> result == 0
    ensures result == 0 ==> data[..] == old(data[..])
  {
    hide Accepts, XorBytes, Ones, Bits, Taken, Register, Signed, Passes;
    ReplyPassesIff(body, noise, false);
    result := Request0102(c, true, Arrived(body, noise), false, unit_id, func, addr, num_of_points, data);
  }
}
