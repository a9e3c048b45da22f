/** The 64-entry ring between the two cores. Each party is a small program of
    atomic loads and stores; a run is any interleaving of their steps. */
module SpscRing {
  import opened Words

  const CAPACITY: nat := 64

  datatype Ring = Ring(entries: seq<u32>, writeIndex: u32, readIndex: u32, drops: u32)

  /** `try_push`, by the locals it holds after each shared access. */
  datatype Producer =
    | Ready
    | GotWrite(value: u32, write: u32)
    | GotRead(value: u32, write: u32, read: u32)
    | Stored(value: u32, write: u32)

  /** `try_pop`, likewise. */
  datatype Consumer =
    | Waiting
    | GotReadIndex(read: u32)
    | GotWriteIndex(read: u32)
    | GotEntry(read: u32, value: u32)

  /** The shared ring, both parties, and what the run has done so far: the
      values published, the values retired, the pushes refused, and how many
      values had been retired when the producer last loaded read_index. */
  datatype System = System(ring: Ring, producer: Producer, consumer: Consumer,
                           pushed: seq<u32>, popped: seq<u32>, refused: nat, seen: nat)

  datatype Step =
    | StartPush(value: u32) | LoadRead | Decide | Publish
    | StartPop | LoadWrite | ReadEntry | Retire

  /** A free-running difference of two 32-bit indices. */
  function Distance(write: u32, read: u32): u32 { (write - read) % W32 }

  /** One atomic step; a step whose party is elsewhere does nothing. */
  function Next(s: System, step: Step): System
    requires |s.ring.entries| == CAPACITY
  {
    match (step, s.producer, s.consumer)
    case (StartPush(v), Ready, _) =>
      s.(producer := GotWrite(v, s.ring.writeIndex))
    case (LoadRead, GotWrite(v, w), _) =>
      s.(producer := GotRead(v, w, s.ring.readIndex), seen := |s.popped|)
    case (Decide, GotRead(v, w, r), _) =>
      if Distance(w, r) >= CAPACITY
      then s.(producer := Ready, ring := s.ring.(drops := Wrap32(s.ring.drops + 1)), refused := s.refused + 1)
      else s.(producer := Stored(v, w), ring := s.ring.(entries := s.ring.entries[w % CAPACITY := v]))
    case (Publish, Stored(v, w), _) =>
      s.(producer := Ready, ring := s.ring.(writeIndex := Wrap32(w + 1)), pushed := s.pushed + [v])
    case (StartPop, _, Waiting) =>
      s.(consumer := GotReadIndex(s.ring.readIndex))
    case (LoadWrite, _, GotReadIndex(r)) =>
      s.(consumer := if r == s.ring.writeIndex then Waiting else GotWriteIndex(r))
    case (ReadEntry, _, GotWriteIndex(r)) =>
      s.(consumer := GotEntry(r, s.ring.entries[r % CAPACITY]))
    case (Retire, _, GotEntry(r, v)) =>
      s.(consumer := Waiting, ring := s.ring.(readIndex := Wrap32(r + 1)), popped := s.popped + [v])
    case _ => s
  }

  function Idle(ring: Ring): System {
    System(ring, Ready, Waiting, [], [], 0, 0)
  }

  const EMPTY: Ring := Ring(seq(CAPACITY, _ => 0), 0, 0, 0)

  function Run(s: System, steps: seq<Step>): (t: System)
    requires |s.ring.entries| == CAPACITY
    ensures |t.ring.entries| == CAPACITY
    decreases steps
  {
    if steps == [] then s else Run(Next(s, steps[0]), steps[1..])
  }

  // ---- the invariant ----------------------------------------------------------

  function Live(s: System): int { |s.pushed| - |s.popped| }

  /** The storage cell of the i-th value ever pushed. */
  function Cell(i: nat): nat { i % CAPACITY }

  ghost predicate RingInv(s: System) {
    && |s.ring.entries| == CAPACITY
    && s.ring.writeIndex == Wrap32(|s.pushed|)
    && s.ring.readIndex == Wrap32(|s.popped|)
    && s.ring.drops == Wrap32(s.refused)
    && 0 <= Live(s) <= CAPACITY
    && s.popped == s.pushed[..|s.popped|]
    && forall i :: |s.popped| <= i < |s.pushed| ==> s.ring.entries[Cell(i)] == s.pushed[i]
  }

  ghost predicate ProducerInv(s: System)
    requires |s.ring.entries| == CAPACITY
  {
    match s.producer
    case Ready => true
    case GotWrite(_, w) => w == Wrap32(|s.pushed|)
    case GotRead(_, w, r) =>
      w == Wrap32(|s.pushed|) && r == Wrap32(s.seen) && s.seen <= |s.popped| && |s.pushed| - s.seen <= CAPACITY
    case Stored(v, w) =>
      w == Wrap32(|s.pushed|) && Live(s) < CAPACITY && s.ring.entries[Cell(|s.pushed|)] == v
  }

  ghost predicate ConsumerInv(s: System) {
    match s.consumer
    case Waiting => true
    case GotReadIndex(r) => r == Wrap32(|s.popped|)
    case GotWriteIndex(r) => r == Wrap32(|s.popped|) && |s.popped| < |s.pushed|
    case GotEntry(r, v) => r == Wrap32(|s.popped|) && |s.popped| < |s.pushed| && v == s.pushed[|s.popped|]
  }

  ghost predicate Inv(s: System) {
    RingInv(s) && ProducerInv(s) && ConsumerInv(s)
  }

  /** The mask of a wrapped index names the cell of the unbounded index. */
  lemma WrappedCell(n: nat)
    ensures Wrap32(n) % CAPACITY == Cell(n)
  {
    assert n == W32 * (n / W32) + Wrap32(n);
    assert W32 == CAPACITY * 0x400_0000;
    assert n == CAPACITY * (0x400_0000 * (n / W32)) + Wrap32(n);
  }

  /** Free-running indices measure any distance below 2^32. */
  lemma WrappedDistance(n: nat, m: nat)
    requires m <= n < m + W32
    ensures Distance(Wrap32(n), Wrap32(m)) == n - m
  {
    var qn, qm := n / W32, m / W32;
    assert n == W32 * qn + Wrap32(n) && m == W32 * qm + Wrap32(m);
    assert qn == qm || qn == qm + 1;
  }

  lemma WrappedSuccessor(n: nat)
    ensures Wrap32(Wrap32(n) + 1) == Wrap32(n + 1)
  {
    Wrap32Add(n, 1);
  }

  /** Distinct values within one capacity of each other have distinct cells. */
  lemma CellsDistinct(i: nat, n: nat)
    requires n - CAPACITY < i < n
    ensures Cell(i) != Cell(n)
  {
  }

  lemma ProducerStepKeeps(s: System, step: Step)
    requires Inv(s) && (step.StartPush? || step.LoadRead? || step.Decide? || step.Publish?)
    ensures Inv(Next(s, step))
  {
    hide Wrap32; hide Distance;
    WrappedCell(|s.pushed|);
    if step.Decide? && s.producer.GotRead? {
      WrappedDistance(|s.pushed|, s.seen);
      WrappedSuccessor(s.refused);
      forall i | |s.popped| <= i < |s.pushed|
        ensures Live(s) < CAPACITY ==> Cell(i) != Cell(|s.pushed|)
      {
        if Live(s) < CAPACITY { CellsDistinct(i, |s.pushed|); }
      }
    }
    WrappedSuccessor(|s.pushed|);
  }

  lemma ConsumerStepKeeps(s: System, step: Step)
    requires Inv(s) && (step.StartPop? || step.LoadWrite? || step.ReadEntry? || step.Retire?)
    ensures Inv(Next(s, step))
  {
    WrappedCell(|s.popped|);
    WrappedDistance(|s.pushed|, |s.popped|);
    WrappedSuccessor(|s.popped|);
    if step.Retire? && s.consumer.GotEntry? {
      assert s.popped + [s.consumer.value] == s.pushed[..|s.popped| + 1];
    }
  }

  lemma {:induction false} RunKeeps(s: System, steps: seq<Step>)
    requires Inv(s)
    ensures Inv(Run(s, steps))
    decreases steps
  {
    if steps != [] {
      var step := steps[0];
      if step.StartPush? || step.LoadRead? || step.Decide? || step.Publish? {
        ProducerStepKeeps(s, step);
      } else {
        ConsumerStepKeeps(s, step);
      }
      RunKeeps(Next(s, step), steps[1..]);
    }
  }

  // ---- what every interleaving guarantees ----------------------------------------

  /** In order, without loss, and never more than the capacity in flight. */
  lemma EveryInterleaving(steps: seq<Step>)
    ensures var s := Run(Idle(EMPTY), steps);
            && s.popped <= s.pushed
            && Distance(s.ring.writeIndex, s.ring.readIndex) == Live(s) <= CAPACITY
            && s.ring.drops == Wrap32(s.refused)
  {
    RunKeeps(Idle(EMPTY), steps);
    var s := Run(Idle(EMPTY), steps);
    WrappedDistance(|s.pushed|, |s.popped|);
  }

  /** Acting on a stale read_index, the producer still only stores into a cell
      that holds no unread value. */
  lemma StoreHitsFreeCell(steps: seq<Step>, i: nat)
    requires var s := Run(Idle(EMPTY), steps);
             s.producer.GotRead? && Next(s, Decide).producer.Stored? && |s.popped| <= i < |s.pushed|
    ensures var s := Run(Idle(EMPTY), steps);
            s.producer.write % CAPACITY != Cell(i)
  {
    RunKeeps(Idle(EMPTY), steps);
    var s := Run(Idle(EMPTY), steps);
    WrappedDistance(|s.pushed|, s.seen);
    WrappedCell(|s.pushed|);
    CellsDistinct(i, |s.pushed|);
  }

  /** A push is refused exactly when the ring was full at its read_index load;
      a pop comes back empty exactly when the ring was empty at its load. */
  lemma RefusalsAreExact(steps: seq<Step>)
    ensures var s := Run(Idle(EMPTY), steps);
            && (s.producer.GotWrite? ==>
                  (Next(Next(s, LoadRead), Decide).producer.Ready? <==> Live(s) == CAPACITY))
            && (s.consumer.GotReadIndex? ==>
                  (Next(s, LoadWrite).consumer.Waiting? <==> Live(s) == 0))
  {
    RunKeeps(Idle(EMPTY), steps);
    var s := Run(Idle(EMPTY), steps);
    WrappedDistance(|s.pushed|, |s.popped|);
    if s.producer.GotWrite? {
      var t := Next(s, LoadRead);
      assert t.producer == GotRead(s.producer.value, s.producer.write, s.ring.readIndex);
    }
  }

  // ---- the two functions as straight-line code ---------------------------------------

  class SharedRing {
    const entries: array<u32>
    var writeIndex: u32
    var readIndex: u32
    var producerDrops: u32

    ghost predicate Valid()
      reads this
    {
      entries.Length == CAPACITY
    }

    ghost function View(): Ring
      reads this, entries
    {
      Ring(entries[..], writeIndex, readIndex, producerDrops)
    }

    constructor ()
      ensures Valid() && fresh(entries)
      ensures View() == EMPTY
    {
      entries := new u32[CAPACITY](_ => 0);
      writeIndex, readIndex, producerDrops := 0, 0, 0;
      new;
      assert entries[..] == EMPTY.entries;
    }

    method TryPush(value: u32) returns (pushed: bool)
      requires Valid()
      modifies this, entries
      ensures Valid()
      ensures var after := Run(Idle(old(View())), [StartPush(value), LoadRead, Decide, Publish]);
              View() == after.ring && pushed == (after.pushed == [value])
    {
      ghost var s0 := Idle(View());
      ghost var s1 := Next(s0, StartPush(value));
      ghost var s2 := Next(s1, LoadRead);
      ghost var s3 := Next(s2, Decide);
      FourSteps(s0, StartPush(value), LoadRead, Decide, Publish);
      var write := writeIndex;
      var read := readIndex;
      if Distance(write, read) >= CAPACITY {
        producerDrops := Wrap32(producerDrops + 1);
        assert s3.ring == View() && s3.producer.Ready?;
        return false;
      }
      entries[write % CAPACITY] := value;
      assert s3.ring == View() && s3.producer.Stored?;
      writeIndex := Wrap32(write + 1);
      return true;
    }

    method TryPop() returns (popped: bool, value: u32)
      requires Valid()
      modifies this
      ensures Valid()
      ensures var after := Run(Idle(old(View())), [StartPop, LoadWrite, ReadEntry, Retire]);
              View() == after.ring && after.popped == if popped then [value] else []
    {
      ghost var s0 := Idle(View());
      FourSteps(s0, StartPop, LoadWrite, ReadEntry, Retire);
      var read := readIndex;
      var write := writeIndex;
      if read == write { return false, 0; }
      value := entries[read % CAPACITY];
      readIndex := Wrap32(read + 1);
      return true, value;
    }
  }

  lemma FourSteps(s: System, a: Step, b: Step, c: Step, d: Step)
    requires |s.ring.entries| == CAPACITY
    ensures |Next(s, a).ring.entries| == |Next(Next(s, a), b).ring.entries| == CAPACITY
    ensures |Next(Next(Next(s, a), b), c).ring.entries| == CAPACITY
    ensures Run(s, [a, b, c, d]) == Next(Next(Next(Next(s, a), b), c), d)
  {
    assert [a, b, c, d][1..] == [b, c, d];
    assert [b, c, d][1..] == [c, d];
    assert [c, d][1..] == [d];
    var s1 := Next(s, a);
    var s2 := Next(s1, b);
    var s3 := Next(s2, c);
    assert Run(s3, [d]) == Next(s3, d);
    assert Run(s2, [c, d]) == Run(s3, [d]);
    assert Run(s1, [b, c, d]) == Run(s2, [c, d]);
  }
}
