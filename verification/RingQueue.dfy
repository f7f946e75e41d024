/**
 The circular queue that carries point messages.  `rear` is the slot last filled and `front`
 the slot last emptied, so the slot at `front` is always unused and a queue of N slots holds
 N - 1 messages.  A ghost trace records what was ever accepted and delivered.
 */
module RingQueue {
  datatype PointInfo = PointInfo(pcm: int, pno: int, value: real, message_type: int)

  datatype Status = Success | QueueFull | QueueEmpty

  /** The slots after `front` up to and including `rear`, wrapping at the end of the array. */
  function Window<T>(d: seq<T>, front: nat, rear: nat): (w: seq<T>)
    requires front < |d| && rear < |d|
    ensures |w| == if front <= rear then rear - front else rear + |d| - front
  {
    if front <= rear then d[front + 1..rear + 1] else d[front + 1..] + d[..rear + 1]
  }

  function Next(i: nat, n: nat): nat
    requires i < n
  {
    if i + 1 < n then i + 1 else 0
  }

  lemma NextIsModular(i: nat, n: nat)
    requires i < n
    ensures (i + 1) % n == Next(i, n)
  {
  }

  lemma WindowPut<T>(d: seq<T>, front: nat, rear: nat, x: T)
    requires front < |d| && rear < |d| && Next(rear, |d|) != front
    ensures Window(d[Next(rear, |d|) := x], front, Next(rear, |d|)) == Window(d, front, rear) + [x]
  {
  }

  lemma GetInOrder<T>(d: seq<T>, front: nat, rear: nat)
    requires front < rear < |d|
    ensures Window(d, front, rear) == [d[front + 1]] + Window(d, front + 1, rear)
  {
  }

  lemma GetBeforeWrap<T>(d: seq<T>, front: nat, rear: nat)
    requires rear < front < |d| - 1
    ensures Window(d, front, rear) == [d[front + 1]] + Window(d, front + 1, rear)
  {
    Peel(d, front + 1);
    PeelFront(d[front + 1], d[front + 2..], d[..rear + 1]);
  }

  lemma Peel<T>(d: seq<T>, i: nat)
    requires i < |d|
    ensures d[i..] == [d[i]] + d[i + 1..]
  {
  }

  lemma PeelFront<T>(x: T, a: seq<T>, b: seq<T>)
    ensures [x] + a + b == [x] + (a + b)
  {
  }

  lemma GetAcrossWrap<T>(d: seq<T>, rear: nat)
    requires rear < |d| - 1
    ensures Window(d, |d| - 1, rear) == [d[0]] + Window(d, 0, rear)
  {
  }

  /** The message after `front` is the oldest. */
  lemma WindowGet<T>(d: seq<T>, front: nat, rear: nat)
    requires front < |d| && rear < |d| && front != rear
    ensures Window(d, front, rear) == [d[Next(front, |d|)]] + Window(d, Next(front, |d|), rear)
  {
    hide Window;
    if front < rear {
      GetInOrder(d, front, rear);
    } else if front + 1 < |d| {
      GetBeforeWrap(d, front, rear);
    } else {
      GetAcrossWrap(d, rear);
    }
  }

  // ---------------------------------------------------------------- the queue as a sequence

  /** One arrival; a full queue refuses it. */
  function Offer(q: seq<PointInfo>, x: PointInfo, size: nat): seq<PointInfo> {
    if |q| + 1 < size then q + [x] else q
  }

  datatype Call = PutCall(point: PointInfo) | GetCall

  /** What is waiting, and what was ever accepted and delivered. */
  datatype Trace = Trace(waiting: seq<PointInfo>, accepted: seq<PointInfo>, delivered: seq<PointInfo>)

  function AfterCall(t: Trace, c: Call, size: nat): Trace {
    match c
    case PutCall(x) =>
      if |t.waiting| + 1 < size then Trace(Offer(t.waiting, x, size), t.accepted + [x], t.delivered) else t
    case GetCall =>
      if |t.waiting| > 0 then Trace(t.waiting[1..], t.accepted, t.delivered + [t.waiting[0]]) else t
  }

  function AfterCalls(calls: seq<Call>, size: nat): Trace {
    if |calls| == 0 then Trace([], [], [])
    else AfterCall(AfterCalls(calls[..|calls| - 1], size), calls[|calls| - 1], size)
  }

  /**
   First in, first out: after any interleaving of calls, what came out is a prefix of what was
   accepted, in order; the rest is waiting; and at most one slot fewer than there are is in use.
   */
  lemma {:induction false} FirstInFirstOut(calls: seq<Call>, size: nat)
    requires size > 0
    ensures var t := AfterCalls(calls, size);
            t.delivered <= t.accepted && t.accepted[|t.delivered|..] == t.waiting && |t.waiting| <= size - 1
  {
    if |calls| > 0 {
      var t := AfterCalls(calls[..|calls| - 1], size);
      FirstInFirstOut(calls[..|calls| - 1], size);
      assert t.accepted == t.delivered + t.waiting;
      KeepsOrder(t, calls[|calls| - 1], size);
    }
  }

  lemma KeepsOrder(t: Trace, c: Call, size: nat)
    requires t.accepted == t.delivered + t.waiting && |t.waiting| <= size - 1
    ensures var r := AfterCall(t, c, size);
            r.accepted == r.delivered + r.waiting && |r.waiting| <= size - 1
  {
    if c.GetCall? && |t.waiting| > 0 {
      assert t.waiting == [t.waiting[0]] + t.waiting[1..];
    }
  }

  // ---------------------------------------------------------------- the circular buffer

  class PointQueue {
    var front: nat
    var rear: nat
    const data: array<PointInfo>

    ghost var history: Trace

    /** The waiting messages, oldest first. */
    ghost function Contents(): seq<PointInfo>
      reads this, data
      requires front < data.Length && rear < data.Length
    {
      Window(data[..], front, rear)
    }

    ghost predicate Valid()
      reads this, data
    {
      front < data.Length && rear < data.Length && history.waiting == Contents()
    }

    /** `initq` on a queue of `size` slots: MAX_QUEUE_SIZE is 2048 in libqueue.h and 4096 in define.h. */
    constructor (size: nat, zero: PointInfo)
      requires size > 0
      ensures Valid() && fresh(data) && data.Length == size
      ensures Contents() == [] && history == AfterCalls([], size)
    {
      front, rear := 0, 0;
      data := new PointInfo[size](_ => zero);
      history := AfterCalls([], size);
    }

    /** `putq`: the rear index is advanced first and put back when it runs into `front`. */
    method Put(point: PointInfo) returns (status: Status)
      requires Valid()
      modifies this, data
      ensures Valid()
      ensures status == if |old(Contents())| + 1 < data.Length then Success else QueueFull
      ensures Contents() == Offer(old(Contents()), point, data.Length)
      ensures history == AfterCall(old(history), PutCall(point), data.Length)
      ensures status == QueueFull ==> unchanged(this) && unchanged(data)
    {
      var prev_rear := rear;
      NextIsModular(rear, data.Length);
      rear := (rear + 1) % data.Length;
      if front == rear {
        rear := prev_rear;
        return QueueFull;
      }
      WindowPut(data[..], front, prev_rear, point);
      data[rear] := point;
      history := AfterCall(history, PutCall(point), data.Length);
      return Success;
    }

    /** `getq`. */
    method Get() returns (status: Status, point: PointInfo)
      requires Valid()
      modifies this
      ensures Valid()
      ensures status == if |old(Contents())| > 0 then Success else QueueEmpty
      ensures status == Success ==> old(Contents()) == [point] + Contents()
      ensures history == AfterCall(old(history), GetCall, data.Length)
      ensures status == QueueEmpty ==> unchanged(this)
    {
      if front == rear {
        return QueueEmpty, data[front];
      }
      WindowGet(data[..], front, rear);
      NextIsModular(front, data.Length);
      front := (front + 1) % data.Length;
      point := data[front];
      history := AfterCall(history, GetCall, data.Length);
      return Success, point;
    }
  }
}
