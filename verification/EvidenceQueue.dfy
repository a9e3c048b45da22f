/** The circular evidence buffer between the execution supervisor and the
    serial console, and the byte FIFO it refines. */
module EvidenceQueue {
  import opened Words

  const CAPACITY: nat := 2048

  // ---- the FIFO -------------------------------------------------------------

  datatype Fifo = Fifo(queued: seq<byte>, drops: u32)

  datatype Operation = Push(data: seq<byte>) | Consume(length: nat)

  predicate Fits(f: Fifo, data: seq<byte>) {
    data == [] || |data| + |f.queued| <= CAPACITY
  }

  function Accepted(f: Fifo, op: Operation): seq<byte> {
    match op
    case Push(data) => if Fits(f, data) then data else []
    case Consume(_) => []
  }

  function Taken(f: Fifo, op: Operation): seq<byte> {
    match op
    case Push(_) => []
    case Consume(n) => f.queued[..if n < |f.queued| then n else |f.queued|]
  }

  function Refused(f: Fifo, op: Operation): nat {
    if op.Push? && !Fits(f, op.data) then 1 else 0
  }

  function Apply(f: Fifo, op: Operation): Fifo {
    Fifo(f.queued[|Taken(f, op)|..] + Accepted(f, op), Wrap32(f.drops + Refused(f, op)))
  }

  // ---- whole runs -----------------------------------------------------------

  function Run(f: Fifo, ops: seq<Operation>): Fifo
    decreases ops
  {
    if ops == [] then f else Run(Apply(f, ops[0]), ops[1..])
  }

  function AcceptedBy(f: Fifo, ops: seq<Operation>): seq<byte>
    decreases ops
  {
    if ops == [] then [] else Accepted(f, ops[0]) + AcceptedBy(Apply(f, ops[0]), ops[1..])
  }

  function TakenBy(f: Fifo, ops: seq<Operation>): seq<byte>
    decreases ops
  {
    if ops == [] then [] else Taken(f, ops[0]) + TakenBy(Apply(f, ops[0]), ops[1..])
  }

  function RefusedBy(f: Fifo, ops: seq<Operation>): nat
    decreases ops
  {
    if ops == [] then 0 else Refused(f, ops[0]) + RefusedBy(Apply(f, ops[0]), ops[1..])
  }

  lemma StepConserves(f: Fifo, op: Operation)
    requires |f.queued| <= CAPACITY
    ensures Taken(f, op) + Apply(f, op).queued == f.queued + Accepted(f, op)
    ensures |Apply(f, op).queued| <= CAPACITY
  {
    var taken := Taken(f, op);
    assert taken + f.queued[|taken|..] == f.queued;
    assert Apply(f, op).queued == f.queued[|taken|..] + Accepted(f, op);
  }

  lemma Regroup(a: seq<byte>, b: seq<byte>, c: seq<byte>)
    ensures (a + b) + c == a + (b + c)
  {
  }

  /** Nothing is lost, duplicated or reordered; the drop counter is exact. */
  lemma {:induction false} RunConserves(f: Fifo, ops: seq<Operation>)
    requires |f.queued| <= CAPACITY
    ensures TakenBy(f, ops) + Run(f, ops).queued == f.queued + AcceptedBy(f, ops)
    ensures Run(f, ops).drops == Wrap32(f.drops + RefusedBy(f, ops))
    ensures |Run(f, ops).queued| <= CAPACITY
    decreases ops
  {
    if ops == [] {
      assert Run(f, ops).drops == f.drops;
    } else {
      var op, rest := ops[0], ops[1..];
      var g := Apply(f, op);
      StepConserves(f, op);
      RunConserves(g, rest);
      Wrap32Add(f.drops + Refused(f, op), RefusedBy(g, rest));
      calc {
        TakenBy(f, ops) + Run(f, ops).queued;
        { Regroup(Taken(f, op), TakenBy(g, rest), Run(g, rest).queued); }
        Taken(f, op) + (g.queued + AcceptedBy(g, rest));
        { Regroup(Taken(f, op), g.queued, AcceptedBy(g, rest)); }
        (f.queued + Accepted(f, op)) + AcceptedBy(g, rest);
        { Regroup(f.queued, Accepted(f, op), AcceptedBy(g, rest)); }
        f.queued + AcceptedBy(f, ops);
      }
    }
  }

  // ---- the circular buffer ----------------------------------------------------

  /** The storage index of the i-th queued byte. */
  function Slot(readOffset: nat, i: nat): nat
    requires readOffset < CAPACITY && i <= CAPACITY
  {
    if readOffset + i < CAPACITY then readOffset + i else readOffset + i - CAPACITY
  }

  lemma SlotIsModulo(readOffset: nat, i: nat)
    requires readOffset < CAPACITY && i <= CAPACITY
    ensures Slot(readOffset, i) == (readOffset + i) % CAPACITY
  {
  }

  function Unrolled(data: seq<byte>, readOffset: nat, used: nat): (s: seq<byte>)
    requires |data| == CAPACITY && readOffset < CAPACITY && used <= CAPACITY
    ensures |s| == used
  {
    seq(used, i requires 0 <= i < used => data[Slot(readOffset, i)])
  }

  /** Filling the free slots in two pieces around the wrap appends. */
  lemma UnrolledPush(data: seq<byte>, r: nat, used: nat, bytes: seq<byte>, first: nat)
    requires |data| == CAPACITY && r < CAPACITY && used + |bytes| <= CAPACITY
    requires first == if |bytes| < CAPACITY - Slot(r, used) then |bytes| else CAPACITY - Slot(r, used)
    ensures first <= |bytes| && Slot(r, used) + first <= CAPACITY
    ensures var filled := Overlay(Overlay(data, Slot(r, used), bytes[..first]), 0, bytes[first..]);
            Unrolled(filled, r, used + |bytes|) == Unrolled(data, r, used) + bytes
  {
    var filled := Overlay(Overlay(data, Slot(r, used), bytes[..first]), 0, bytes[first..]);
    forall i | 0 <= i < used + |bytes|
      ensures filled[Slot(r, i)] == if i < used then data[Slot(r, i)] else bytes[i - used]
    {
    }
  }

  lemma UnrolledConsume(data: seq<byte>, r: nat, used: nat, n: nat)
    requires |data| == CAPACITY && r < CAPACITY && n <= used <= CAPACITY
    ensures Unrolled(data, Slot(r, n), used - n) == Unrolled(data, r, used)[n..]
    ensures Slot(Slot(r, n), used - n) == Slot(r, used)
  {
  }

  class Queue {
    const data: array<byte>
    var readOffset: nat
    var writeOffset: nat
    var used: nat
    var producerDrops: u32

    ghost predicate Valid()
      reads this, data
    {
      && data.Length == CAPACITY
      && readOffset < CAPACITY
      && used <= CAPACITY
      && writeOffset == Slot(readOffset, used)
    }

    ghost function View(): Fifo
      reads this, data
      requires Valid()
    {
      Fifo(Unrolled(data[..], readOffset, used), producerDrops)
    }

    constructor ()
      ensures Valid() && fresh(data)
      ensures View() == Fifo([], 0)
    {
      data := new byte[CAPACITY](_ => 0);
      readOffset, writeOffset, used, producerDrops := 0, 0, 0, 0;
    }

    method TryPush(bytes: seq<byte>) returns (pushed: bool)
      requires Valid()
      modifies this, data
      ensures Valid()
      ensures pushed == Fits(old(View()), bytes)
      ensures View() == Apply(old(View()), Push(bytes))
    {
      if |bytes| == 0 { return true; }
      if |bytes| > CAPACITY - used {
        producerDrops := Wrap32(producerDrops + 1);
        return false;
      }
      var first := if |bytes| < CAPACITY - writeOffset then |bytes| else CAPACITY - writeOffset;
      UnrolledPush(data[..], readOffset, used, bytes, first);
      CopyInto(data, writeOffset, bytes[..first]);
      CopyInto(data, 0, bytes[first..]);
      SlotIsModulo(writeOffset, |bytes|);
      writeOffset := (writeOffset + |bytes|) % CAPACITY;
      used := used + |bytes|;
      return true;
    }

    /** The contiguous head of the queue: where it starts and how long it is. */
    method Peek() returns (start: nat, length: nat)
      requires Valid()
      ensures length <= |View().queued|
      ensures length == 0 <==> View().queued == []
      ensures length != 0 ==> start + length <= data.Length
                              && data[start..start + length] == View().queued[..length]
    {
      if used == 0 { return 0, 0; }
      start := readOffset;
      var contiguous := CAPACITY - readOffset;
      length := if used < contiguous then used else contiguous;
    }

    method ConsumeFront(requested: nat)
      requires Valid()
      modifies this
      ensures Valid()
      ensures View() == Apply(old(View()), Consume(requested))
    {
      var length := if requested > used then used else requested;
      SlotIsModulo(readOffset, length);
      UnrolledConsume(data[..], readOffset, used, length);
      readOffset := (readOffset + length) % CAPACITY;
      used := used - length;
      assert View().queued == old(View().queued)[length..] + [];
    }
  }
}
