/**
 Write requests are served from inside the sweep: at every point slot the BACnet reader takes
 at most one message from the queue.  Messages arrive from other threads and from the reader
 itself, whose interlock adds up to two in every slot just before it takes one.  All calls are
 serialised by a mutex, so between two dequeues a list of arrivals is put in order.
 */
module WriteService {
  import opened RingQueue

  datatype Served = Nothing | Message(point: PointInfo)

  function Arrive(q: seq<PointInfo>, arrivals: seq<PointInfo>, size: nat): seq<PointInfo> {
    if |arrivals| == 0 then q
    else Offer(Arrive(q, arrivals[..|arrivals| - 1], size), arrivals[|arrivals| - 1], size)
  }

  function Head(q: seq<PointInfo>): Served {
    if |q| == 0 then Nothing else Message(q[0])
  }

  function Tail(q: seq<PointInfo>): seq<PointInfo> {
    if |q| == 0 then q else q[1..]
  }

  /** The queue after the given slots: the arrivals of each slot, then one dequeue. */
  function Waiting(q: seq<PointInfo>, slots: seq<seq<PointInfo>>, size: nat): seq<PointInfo> {
    if |slots| == 0 then q
    else Tail(Arrive(Waiting(q, slots[..|slots| - 1], size), slots[|slots| - 1], size))
  }

  /** What the last of the given slots serves. */
  function LastServed(q: seq<PointInfo>, slots: seq<seq<PointInfo>>, size: nat): Served
    requires |slots| > 0
  {
    Head(Arrive(Waiting(q, slots[..|slots| - 1], size), slots[|slots| - 1], size))
  }

  lemma NoSlots(q: seq<PointInfo>, size: nat)
    ensures Waiting(q, [], size) == q
  {
  }

  lemma NextSlot(q: seq<PointInfo>, slots: seq<seq<PointInfo>>, j: nat, size: nat)
    requires j < |slots|
    ensures var arrived := Arrive(Waiting(q, slots[..j], size), slots[j], size);
            && Waiting(q, slots[..j + 1], size) == Tail(arrived)
            && LastServed(q, slots[..j + 1], size) == Head(arrived)
  {
    assert slots[..j + 1][..j] == slots[..j];
  }

  // ---------------------------------------------------------------- conservation

  /** How many of `n` arrivals a queue of length `waiting` has room for. */
  function Room(waiting: nat, n: nat, size: nat): (r: nat)
    ensures r <= n
  {
    if waiting + n < size then n else if waiting < size then size - 1 - waiting else 0
  }

  /** The arrivals that the queue accepts over the given slots: of each slot the first that find room. */
  function Accepted(q: seq<PointInfo>, slots: seq<seq<PointInfo>>, size: nat): seq<PointInfo> {
    if |slots| == 0 then []
    else
      var n := |slots| - 1;
      Accepted(q, slots[..n], size) + slots[n][..Room(|Waiting(q, slots[..n], size)|, |slots[n]|, size)]
  }

  /** The points of the messages in a log, in order. */
  function Points(log: seq<Served>): seq<PointInfo> {
    if |log| == 0 then []
    else
      var n := |log| - 1;
      match log[n]
      case Nothing => Points(log[..n])
      case Message(point) => Points(log[..n]) + [point]
  }

  /** The log that the given slots leave. */
  ghost predicate IsLog(q: seq<PointInfo>, slots: seq<seq<PointInfo>>, size: nat, log: seq<Served>) {
    |log| == |slots| && forall j | 0 <= j < |slots| :: log[j] == LastServed(q, slots[..j + 1], size)
  }

  /** Arrivals join the end in order, as far as there is room. */
  lemma {:induction false} ArriveAppends(q: seq<PointInfo>, arrivals: seq<PointInfo>, size: nat)
    ensures Arrive(q, arrivals, size) == q + arrivals[..Room(|q|, |arrivals|, size)]
  {
    var n := |arrivals| - 1;
    if n < 0 {
      assert q + arrivals[..0] == q;
    } else {
      ArriveAppends(q, arrivals[..n], size);
      var room := Room(|q|, n, size);
      assert arrivals[..n][..room] == arrivals[..room];
      if |q| + n + 1 < size {
        assert arrivals[..n + 1] == arrivals[..n] + [arrivals[n]];
      }
    }
  }

  /** One slot takes the head away, if there is one. */
  lemma HeadAndTail(q: seq<PointInfo>)
    ensures |q| == 0 ==> Head(q) == Nothing && Tail(q) == []
    ensures |q| > 0 ==> Head(q) == Message(q[0]) && [q[0]] + Tail(q) == q
  {
  }

  lemma Regroup(a: seq<PointInfo>, b: seq<PointInfo>, c: seq<PointInfo>, d: seq<PointInfo>)
    requires a + b == c
    ensures a + (b + d) == c + d
  {
  }

  /**
   Conservation: what the slots served, followed by what waits, is what waited before followed
   by what was accepted.  No slot serves what nobody put, and nothing accepted is lost.
   */
  lemma {:induction false} Conservation(q: seq<PointInfo>, slots: seq<seq<PointInfo>>, size: nat, log: seq<Served>)
    requires IsLog(q, slots, size, log)
    ensures Points(log) + Waiting(q, slots, size) == q + Accepted(q, slots, size)
  {
    hide Arrive, Head, Tail, Room, LastServed;
    if |slots| > 0 {
      var n := |slots| - 1;
      LogPrefix(q, slots, size, log, n);
      Conservation(q, slots[..n], size, log[..n]);
      var w := Waiting(q, slots[..n], size);
      var fits := slots[n][..Room(|w|, |slots[n]|, size)];
      LastSlot(q, slots, size, log, n);
      Regroup(Points(log[..n]), w, q + Accepted(q, slots[..n], size), fits);
      SlotKeeps(log, n, w + fits, Waiting(q, slots, size));
    }
  }

  lemma LogPrefix(q: seq<PointInfo>, slots: seq<seq<PointInfo>>, size: nat, log: seq<Served>, n: nat)
    requires IsLog(q, slots, size, log) && n <= |slots|
    ensures IsLog(q, slots[..n], size, log[..n])
  {
    hide LastServed;
    forall j | 0 <= j < n
      ensures log[..n][j] == LastServed(q, slots[..n][..j + 1], size)
    {
      assert slots[..n][..j + 1] == slots[..j + 1];
    }
  }

  lemma LastSlot(q: seq<PointInfo>, slots: seq<seq<PointInfo>>, size: nat, log: seq<Served>, n: nat)
    requires IsLog(q, slots, size, log) && |slots| == n + 1
    ensures var w := Waiting(q, slots[..n], size);
            var arrived := w + slots[n][..Room(|w|, |slots[n]|, size)];
            if |arrived| == 0 then log[n] == Nothing && Waiting(q, slots, size) == []
            else log[n] == Message(arrived[0]) && [arrived[0]] + Waiting(q, slots, size) == arrived
  {
    hide Arrive, Head, Tail, Room, Waiting, LastServed;
    var w := Waiting(q, slots[..n], size);
    ArriveAppends(w, slots[n], size);
    NextSlot(q, slots, n, size);
    assert slots[..n + 1] == slots;
    HeadAndTail(w + slots[n][..Room(|w|, |slots[n]|, size)]);
  }

  lemma SlotKeeps(log: seq<Served>, n: nat, arrived: seq<PointInfo>, rest: seq<PointInfo>)
    requires |log| == n + 1
    requires if |arrived| == 0 then log[n] == Nothing && rest == []
             else log[n] == Message(arrived[0]) && [arrived[0]] + rest == arrived
    ensures Points(log) + rest == Points(log[..n]) + arrived
  {
  }

  /** `get_bacnet_message_queue`. */
  method GetMessage(q: PointQueue) returns (served: Served)
    requires q.Valid()
    modifies q
    ensures q.Valid()
    ensures served == Head(old(q.Contents())) && q.Contents() == Tail(old(q.Contents()))
    ensures |old(q.Contents())| == 0 ==> served == Nothing && q.Contents() == []
    ensures |old(q.Contents())| > 0 ==>
              served.Message? && [served.point] + q.Contents() == old(q.Contents())
  {
    var status, point := q.Get();
    served := if status == Success then Message(point) else Nothing;
  }

  /** The `put_bacnet_message_queue` calls between two dequeues, the interlock's and other threads'. */
  method PutAll(q: PointQueue, arrivals: seq<PointInfo>)
    requires q.Valid()
    modifies q, q.data
    ensures q.Valid()
    ensures q.Contents() == Arrive(old(q.Contents()), arrivals, q.data.Length)
  {
    var i := 0;
    while i < |arrivals|
      invariant 0 <= i <= |arrivals| && q.Valid()
      invariant q.Contents() == Arrive(old(q.Contents()), arrivals[..i], q.data.Length)
    {
      var status := q.Put(arrivals[i]);
      assert arrivals[..i + 1][..i] == arrivals[..i];
      i := i + 1;
    }
    assert arrivals[..i] == arrivals;
  }

  /** The queue's side of one sweep over `|slots|` configured points. */
  method Sweep(q: PointQueue, slots: seq<seq<PointInfo>>) returns (log: seq<Served>)
    requires q.Valid()
    modifies q, q.data
    ensures q.Valid()
    ensures q.Contents() == Waiting(old(q.Contents()), slots, q.data.Length)
    ensures |log| == |slots|
    ensures forall j | 0 <= j < |slots| :: log[j] == LastServed(old(q.Contents()), slots[..j + 1], q.data.Length)
    ensures Points(log) + q.Contents() == old(q.Contents()) + Accepted(old(q.Contents()), slots, q.data.Length)
  {
    hide Waiting, LastServed, Arrive, Head, Tail, Points, Accepted;
    log := [];
    var j := 0;
    NoSlots(q.Contents(), q.data.Length);
    assert slots[..0] == [];
    while j < |slots|
      invariant 0 <= j <= |slots| && |log| == j && q.Valid()
      invariant q.Contents() == Waiting(old(q.Contents()), slots[..j], q.data.Length)
      invariant forall k | 0 <= k < j :: log[k] == LastServed(old(q.Contents()), slots[..k + 1], q.data.Length)
    {
      PutAll(q, slots[j]);
      var served := GetMessage(q);
      NextSlot(old(q.Contents()), slots, j, q.data.Length);
      log := log + [served];
      j := j + 1;
    }
    assert slots[..j] == slots;
    Conservation(old(q.Contents()), slots, q.data.Length, log);
  }

  // ---------------------------------------------------------------- bounded latency

  lemma {:induction false} ArriveKeeps(q: seq<PointInfo>, arrivals: seq<PointInfo>, size: nat)
    ensures q <= Arrive(q, arrivals, size)
  {
    if |arrivals| > 0 {
      ArriveKeeps(q, arrivals[..|arrivals| - 1], size);
    }
  }

  /** Each slot moves every waiting message one place forward. */
  lemma {:induction false} WaitingKeeps(q: seq<PointInfo>, slots: seq<seq<PointInfo>>, size: nat)
    requires |slots| <= |q|
    ensures q[|slots|..] <= Waiting(q, slots, size)
  {
    if |slots| > 0 {
      var n := |slots| - 1;
      WaitingKeeps(q, slots[..n], size);
      ArriveKeeps(Waiting(q, slots[..n], size), slots[n], size);
    }
  }

  /**
   Bounded latency: a request with d messages ahead of it is served by exactly the (d + 1)th
   slot from then on, whatever arrives in between.
   */
  lemma ServedAfterDepth(q: seq<PointInfo>, slots: seq<seq<PointInfo>>, size: nat, d: nat)
    requires d < |q| && |slots| == d + 1
    ensures LastServed(q, slots, size) == Message(q[d])
  {
    WaitingKeeps(q, slots[..d], size);
    ArriveKeeps(Waiting(q, slots[..d], size), slots[d], size);
  }

  /** A request that the queue accepts is served within as many slots as messages were ahead, plus one. */
  lemma AcceptedIsServed(q: seq<PointInfo>, x: PointInfo, slots: seq<seq<PointInfo>>, size: nat)
    requires |q| + 1 < size && |slots| == |q| + 1
    ensures LastServed(Offer(q, x, size), slots, size) == Message(x)
  {
    ServedAfterDepth(q + [x], slots, size, |q|);
  }

  // ---------------------------------------------------------------- several sweeps

  /** Slots of one sweep follow on from those of the sweep before. */
  lemma {:induction false} WaitingConcat(q: seq<PointInfo>, a: seq<seq<PointInfo>>, b: seq<seq<PointInfo>>, size: nat)
    ensures Waiting(q, a + b, size) == Waiting(Waiting(q, a, size), b, size)
  {
    hide Arrive, Tail;
    if |b| == 0 {
      assert a + b == a;
    } else {
      var n := |b| - 1;
      assert (a + b)[..|a + b| - 1] == a + b[..n];
      WaitingConcat(q, a, b[..n], size);
    }
  }

  lemma LastServedConcat(q: seq<PointInfo>, a: seq<seq<PointInfo>>, b: seq<seq<PointInfo>>, size: nat)
    requires |b| > 0
    ensures LastServed(q, a + b, size) == LastServed(Waiting(q, a, size), b, size)
  {
    hide Waiting, Arrive, Head;
    var n := |b| - 1;
    assert (a + b)[..|a + b| - 1] == a + b[..n];
    WaitingConcat(q, a, b[..n], size);
  }

  /** The slots of a sequence of sweeps, one after the other. */
  function Slots(sweeps: seq<seq<seq<PointInfo>>>): seq<seq<PointInfo>> {
    if |sweeps| == 0 then [] else Slots(sweeps[..|sweeps| - 1]) + sweeps[|sweeps| - 1]
  }

  lemma {:induction false} EverySweepHasSlots(sweeps: seq<seq<seq<PointInfo>>>)
    requires forall i | 0 <= i < |sweeps| :: |sweeps[i]| > 0
    ensures |Slots(sweeps)| >= |sweeps|
  {
    if |sweeps| > 0 {
      EverySweepHasSlots(sweeps[..|sweeps| - 1]);
    }
  }

  /** The reader's loop over successive sweeps. */
  method Sweeps(q: PointQueue, sweeps: seq<seq<seq<PointInfo>>>) returns (log: seq<Served>)
    requires q.Valid()
    modifies q, q.data
    ensures q.Valid()
    ensures q.Contents() == Waiting(old(q.Contents()), Slots(sweeps), q.data.Length)
    ensures |log| == |Slots(sweeps)|
    ensures forall j | 0 <= j < |log| ::
              log[j] == LastServed(old(q.Contents()), Slots(sweeps)[..j + 1], q.data.Length)
    ensures Points(log) + q.Contents() == old(q.Contents()) + Accepted(old(q.Contents()), Slots(sweeps), q.data.Length)
  {
    hide Waiting, LastServed, Arrive, Head, Tail, Points, Accepted;
    ghost var start, size := q.Contents(), q.data.Length;
    log := [];
    var i := 0;
    NoSlots(start, size);
    while i < |sweeps|
      invariant 0 <= i <= |sweeps| && q.Valid()
      invariant q.Contents() == Waiting(start, Slots(sweeps[..i]), size)
      invariant |log| == |Slots(sweeps[..i])|
      invariant forall j | 0 <= j < |log| :: log[j] == LastServed(start, Slots(sweeps[..i])[..j + 1], size)
    {
      ghost var done := Slots(sweeps[..i]);
      var served := Sweep(q, sweeps[i]);
      assert sweeps[..i + 1][..i] == sweeps[..i];
      WaitingConcat(start, done, sweeps[i], size);
      forall j | 0 <= j < |log + served|
        ensures (log + served)[j] == LastServed(start, (done + sweeps[i])[..j + 1], size)
      {
        ServedInSweep(start, done, sweeps[i], size, j);
      }
      log := log + served;
      i := i + 1;
    }
    assert sweeps[..i] == sweeps;
    Conservation(start, Slots(sweeps), size, log);
  }

  lemma ServedInSweep(q: seq<PointInfo>, done: seq<seq<PointInfo>>, sweep: seq<seq<PointInfo>>, size: nat, j: nat)
    requires j < |done| + |sweep|
    ensures LastServed(q, (done + sweep)[..j + 1], size) ==
            if j < |done| then LastServed(q, done[..j + 1], size)
            else LastServed(Waiting(q, done, size), sweep[..j - |done| + 1], size)
  {
    hide LastServed, Waiting;
    if j < |done| {
      assert (done + sweep)[..j + 1] == done[..j + 1];
    } else {
      assert (done + sweep)[..j + 1] == done + sweep[..j - |done| + 1];
      LastServedConcat(q, done, sweep[..j - |done| + 1], size);
    }
  }

  /**
   A write request from its arrival: if the queue accepts it behind d messages, it is what the
   (d + 1)th slot serves, so with at least one point it is served within d + 1 sweeps.
   */
  method RequestAndServe(q: PointQueue, x: PointInfo, sweeps: seq<seq<seq<PointInfo>>>)
    returns (status: Status, log: seq<Served>)
    requires q.Valid() && forall i | 0 <= i < |sweeps| :: |sweeps[i]| > 0
    modifies q, q.data
    ensures q.Valid()
    ensures status == Success <==> |old(q.Contents())| + 1 < q.data.Length
    ensures |log| >= |sweeps|
    ensures status == Success && |log| > |old(q.Contents())| ==> log[|old(q.Contents())|] == Message(x)
  {
    hide Waiting, LastServed, Arrive, Head, Tail;
    ghost var d := |q.Contents()|;
    ghost var waiting := q.Contents();
    status := q.Put(x);
    log := Sweeps(q, sweeps);
    EverySweepHasSlots(sweeps);
    if status == Success && d < |log| {
      AcceptedIsServed(waiting, x, Slots(sweeps)[..d + 1], q.data.Length);
    }
  }

  // ---------------------------------------------------------------- a full queue

  /** Arrivals fill the queue up to its capacity and no further. */
  lemma {:induction false} ArriveLength(q: seq<PointInfo>, arrivals: seq<PointInfo>, size: nat)
    requires |q| + 1 <= size
    ensures |Arrive(q, arrivals, size)| == if |q| + |arrivals| < size then |q| + |arrivals| else size - 1
  {
    if |arrivals| > 0 {
      ArriveLength(q, arrivals[..|arrivals| - 1], size);
    }
  }

  lemma {:induction false} WaitingBounded(q: seq<PointInfo>, slots: seq<seq<PointInfo>>, size: nat)
    requires |q| + 1 <= size
    ensures |Waiting(q, slots, size)| + 1 <= size
  {
    if |slots| > 0 {
      var n := |slots| - 1;
      WaitingBounded(q, slots[..n], size);
      ArriveLength(Waiting(q, slots[..n], size), slots[n], size);
    }
  }

  /** The wait never exceeds the queue: any accepted request is among what size - 1 slots serve. */
  lemma ServedWithinCapacity(q: seq<PointInfo>, x: PointInfo, slots: seq<seq<PointInfo>>, size: nat) returns (j: nat)
    requires |q| + 1 < size && |slots| == size - 1
    ensures j < |slots| && LastServed(Offer(q, x, size), slots[..j + 1], size) == Message(x)
  {
    hide LastServed, Offer;
    j := |q|;
    AcceptedIsServed(q, x, slots[..j + 1], size);
  }

  /** With two or more arrivals in every slot the queue grows by at least one a slot until it is full. */
  lemma {:induction false} BusySlotsFill(q: seq<PointInfo>, slots: seq<seq<PointInfo>>, size: nat)
    requires |q| + 1 <= size && size >= 2
    requires forall k | 0 <= k < |slots| :: |slots[k]| >= 2
    ensures |Waiting(q, slots, size)| + 2 >= size || |Waiting(q, slots, size)| >= |q| + |slots|
  {
    if |slots| > 0 {
      var n := |slots| - 1;
      BusySlotsFill(q, slots[..n], size);
      WaitingBounded(q, slots[..n], size);
      ArriveLength(Waiting(q, slots[..n], size), slots[n], size);
    }
  }

  /**
   Saturation: while the interlock adds two messages in every slot and a slot takes one, the
   queue is full after at most size - 2 slots; from then on a slot accepts at most the first
   message that arrives and refuses all behind it.
   */
  lemma InterlockSaturates(q: seq<PointInfo>, slots: seq<seq<PointInfo>>, first: PointInfo,
                           others: seq<PointInfo>, size: nat)
    requires |q| + 1 <= size && size >= 2 && |slots| + 2 >= size
    requires forall k | 0 <= k < |slots| :: |slots[k]| >= 2
    ensures var waiting := Waiting(q, slots, size);
            Arrive(waiting, [first] + others, size) == Arrive(waiting, [first], size)
  {
    BusySlotsFill(q, slots, size);
    WaitingBounded(q, slots, size);
    var waiting := Waiting(q, slots, size);
    ArriveLength(waiting, [first], size);
    FullRefusesAll(waiting, [first], others, size);
  }

  lemma {:induction false} FullRefusesAll(q: seq<PointInfo>, a: seq<PointInfo>, b: seq<PointInfo>, size: nat)
    requires |Arrive(q, a, size)| + 1 >= size
    ensures Arrive(q, a + b, size) == Arrive(q, a, size)
  {
    if |b| == 0 {
      assert a + b == a;
    } else {
      assert (a + b)[..|a + b| - 1] == a + b[..|b| - 1];
      FullRefusesAll(q, a, b[..|b| - 1], size);
    }
  }
}
