/** What the processor does with the sixteen bytes at its reset vector: the few
    8086 instruction forms they are made of, and where they lead. */
module ResetVector {
  import opened Words
  import opened WorkloadManager
  import opened LaneBus
  import opened ProcessorBus
  import opened Supervisor
  import opened SupervisorRuns
  import opened ServiceVerdicts

  datatype Cpu = Cpu(cs: u16, ip: u16, ss: u16, sp: u16, ax: u16, interrupts: bool)

  /** The byte at an offset from CS:IP; the address bus has twenty lines. */
  function CodeByte(code: Flat, c: Cpu, k: nat): Option<byte> {
    var a := (16 * c.cs + (c.ip + k) % 0x1_0000) % 0x10_0000;
    if a in code then Some(code[a]) else None
  }

  function CodeWord(code: Flat, c: Cpu, k: nat): Option<u16> {
    var low, high := CodeByte(code, c, k), CodeByte(code, c, k + 1);
    if low.Some? && high.Some? then Some(low.value + 256 * high.value) else None
  }

  function Advanced(c: Cpu, n: nat): Cpu { c.(ip := (c.ip + n) % 0x1_0000) }

  /** One instruction, if it is one of the forms: CLI, MOV AX and MOV SP with an
      immediate word, MOV SS from AX, a far jump, NOP. */
  function Executed(code: Flat, c: Cpu): Option<Cpu> {
    var opcode, second, word, next := CodeByte(code, c, 0), CodeByte(code, c, 1), CodeWord(code, c, 1), CodeWord(code, c, 3);
    if opcode == Some(0x90) then Some(Advanced(c, 1))
    else if opcode == Some(0xFA) then Some(Advanced(c, 1).(interrupts := false))
    else if opcode == Some(0xB8) && word.Some? then Some(Advanced(c, 3).(ax := word.value))
    else if opcode == Some(0xBC) && word.Some? then Some(Advanced(c, 3).(sp := word.value))
    else if opcode == Some(0x8E) && second == Some(0xD0) then Some(Advanced(c, 2).(ss := c.ax))
    else if opcode == Some(0xEA) && word.Some? && next.Some? then Some(c.(ip := word.value, cs := next.value))
    else None
  }

  function ExecutedAll(code: Flat, c: Cpu, n: nat): Option<Cpu>
    decreases n
  {
    if n == 0 then Some(c)
    else
      var d := Executed(code, c);
      if d.None? then None else ExecutedAll(code, d.value, n - 1)
  }

  /** The processor after RESET. */
  predicate AtReset(c: Cpu) { c.cs == 0xFFFF && c.ip == 0 }

  /** The sixteen bytes are in front of the processor. */
  predicate Holds(code: Flat, bytes: seq<byte>) {
    |bytes| == 16 && forall i :: 0 <= i < 16 ==> 0xFFFF0 + i in code && code[0xFFFF0 + i] == bytes[i]
  }

  lemma ByteAt(code: Flat, bytes: seq<byte>, c: Cpu, k: nat)
    requires Holds(code, bytes) && c.cs == 0xFFFF && c.ip + k < 16
    ensures CodeByte(code, c, k) == Some(bytes[c.ip + k])
  {
  }

  lemma WordAt(code: Flat, bytes: seq<byte>, c: Cpu, k: nat, w: u16)
    requires Holds(code, bytes) && c.cs == 0xFFFF && c.ip + k + 1 < 16
    requires bytes[c.ip + k] == w % 256 && bytes[c.ip + k + 1] == w / 256
    ensures CodeWord(code, c, k) == Some(w)
  {
    ByteAt(code, bytes, c, k);
    ByteAt(code, bytes, c, k + 1);
  }

  lemma Jumps(code: Flat, bytes: seq<byte>, c: Cpu, segment: u16, offset: u16)
    requires Holds(code, bytes) && c.cs == 0xFFFF && c.ip + 4 < 16 && bytes[c.ip] == 0xEA
    requires bytes[c.ip + 1] == offset % 256 && bytes[c.ip + 2] == offset / 256
    requires bytes[c.ip + 3] == segment % 256 && bytes[c.ip + 4] == segment / 256
    ensures Executed(code, c) == Some(c.(cs := segment, ip := offset))
  {
    hide CodeByte; hide CodeWord;
    ByteAt(code, bytes, c, 0);
    WordAt(code, bytes, c, 1, offset);
    WordAt(code, bytes, c, 3, segment);
  }

  /** CLI; MOV AX, segment; MOV SS, AX; MOV SP, offset. */
  lemma SetsStack(code: Flat, bytes: seq<byte>, c: Cpu, segment: u16, offset: u16)
    requires Holds(code, bytes) && AtReset(c)
    requires bytes[0] == 0xFA && bytes[1] == 0xB8 && bytes[2] == segment % 256 && bytes[3] == segment / 256
    requires bytes[4] == 0x8E && bytes[5] == 0xD0 && bytes[6] == 0xBC && bytes[7] == offset % 256 && bytes[8] == offset / 256
    ensures ExecutedAll(code, c, 4) == Some(Cpu(0xFFFF, 9, segment, offset, segment, false))
  {
    hide CodeByte; hide CodeWord;
    ByteAt(code, bytes, c, 0);
    var c1 := c.(ip := 1, interrupts := false);
    assert Executed(code, c) == Some(c1);
    ByteAt(code, bytes, c1, 0);
    WordAt(code, bytes, c1, 1, segment);
    var c2 := c1.(ip := 4, ax := segment);
    assert Executed(code, c1) == Some(c2);
    ByteAt(code, bytes, c2, 0);
    ByteAt(code, bytes, c2, 1);
    var c3 := c2.(ip := 6, ss := segment);
    assert Executed(code, c2) == Some(c3);
    ByteAt(code, bytes, c3, 0);
    WordAt(code, bytes, c3, 1, offset);
    var c4 := c3.(ip := 9, sp := offset);
    assert Executed(code, c3) == Some(c4);
    hide Executed;
    assert ExecutedAll(code, c3, 1) == Some(c4);
    assert ExecutedAll(code, c2, 2) == Some(c4);
    assert ExecutedAll(code, c1, 3) == Some(c4);
  }

  lemma {:induction false} OneMore(code: Flat, c: Cpu, n: nat)
    ensures ExecutedAll(code, c, n + 1)
            == var d := ExecutedAll(code, c, n); if d.None? then None else Executed(code, d.value)
    decreases n
  {
    hide Executed;
    if n != 0 && Executed(code, c).Some? { OneMore(code, Executed(code, c).value, n - 1); }
  }

  /** Where the sixteen bytes of a manifest lead. */
  predicate Entered(m: Manifest, c: Cpu, d: Cpu) {
    && d.cs == m.entrySegment && d.ip == m.entryOffset
    && if m.stackSegment == 0 && m.stackOffset == 0 then d.ss == c.ss && d.sp == c.sp && d.interrupts == c.interrupts
       else d.ss == m.stackSegment && d.sp == m.stackOffset && !d.interrupts
  }

  /** How many instructions that takes. */
  function Length(m: Manifest): nat { if m.stackSegment == 0 && m.stackOffset == 0 then 1 else 5 }

  /** For every manifest: run from the reset vector, its bytes reach exactly the
      declared entry, with the declared stack if one is declared and an untouched
      one otherwise. */
  lemma HandoffEnters(m: Manifest, code: Flat, c: Cpu)
    requires Holds(code, Handoff(m)) && AtReset(c)
    ensures var d := ExecutedAll(code, c, Length(m));
            d.Some? && Entered(m, c, d.value)
  {
    hide ExecutedAll; hide Executed;
    var bytes := Handoff(m);
    if m.stackSegment == 0 && m.stackOffset == 0 {
      Jumps(code, bytes, c, m.entrySegment, m.entryOffset);
      OneMore(code, c, 0);
      NoneYet(code, c);
    } else {
      SetsStack(code, bytes, c, m.stackSegment, m.stackOffset);
      Jumps(code, bytes, Cpu(0xFFFF, 9, m.stackSegment, m.stackOffset, m.stackSegment, false), m.entrySegment, m.entryOffset);
      OneMore(code, c, 4);
    }
  }

  lemma NoneYet(code: Flat, c: Cpu)
    ensures ExecutedAll(code, c, 0) == Some(c)
  {
  }

  lemma VisibleHolds(site: Site)
    requires |site.store.bytes| == 0x40000
    ensures Holds(Visible(site), Handoff(site.manager.manifest))
  {
    hide Handoff;
  }

  lemma EntryInImage(site: Site)
    requires SiteInv(site) && !site.manager.state.Empty?
    ensures var m := site.manager.manifest;
            m.loadAddress <= 16 * m.entrySegment + m.entryOffset < m.loadAddress + m.imageSize <= 0x10_0000
  {
    ValidatorsAgree(site.manager.manifest, site.store);
  }

  /** In every reachable state that is executing: a processor leaving RESET, on
      the memory it sees, arrives at the entry of the staged workload, inside its
      image and with its stack. */
  lemma ResetEnters(start: Machine, steps: seq<Step>, c: Cpu)
    requires Initial(start) && AllPlausible(steps) && AtReset(c)
    requires SupervisorRuns.Run(start, steps).exec.active
    ensures var s := SupervisorRuns.Run(start, steps);
            && |s.site.store.bytes| == 0x40000
            && var m, d := s.site.manager.manifest, ExecutedAll(Visible(s.site), c, Length(s.site.manager.manifest));
            && d.Some? && Entered(m, c, d.value)
            && m.loadAddress <= 16 * d.value.cs + d.value.ip < m.loadAddress + m.imageSize
  {
    hide SupervisorRuns.Run; hide Initial; hide AllPlausible; hide Inv; hide Visible; hide ExecutedAll;
    Reached(start, steps);
    LifecycleInStep(start, steps);
    var s := SupervisorRuns.Run(start, steps);
    RamFull(s);
    SiteOf(s);
    EntryInImage(s.site);
    VisibleHolds(s.site);
    HandoffEnters(s.site.manager.manifest, Visible(s.site), c);
  }

  lemma SiteOf(s: Machine)
    requires Inv(s)
    ensures SiteInv(s.site)
  {
    hide SiteInv; hide Alive;
  }

  /** A word read of the processor at the reset vector. */
  function Fetch(k: nat, data: u16, first: u16, second: u16): BusEvent
    requires k < 8
  {
    Cycle(0xFFFF0 + 2 * k, false, true, false, true, data, Samples(first, second))
  }

  lemma PairShown(flat: Flat, a: nat, word: u16, w: u16)
    requires a % 2 == 0 && a in flat && a + 1 in flat && word % 256 == flat[a] && word / 256 == flat[a + 1]
    ensures LaneByte(w, a) == flat[a] && LaneByte(w, a + 1) == flat[a + 1] <==> w == word
  {
  }

  lemma VectorWord(site: Site, k: nat)
    requires k < 8 && |site.store.bytes| == 0x40000
    ensures var flat, word, a := Visible(site), Load16(Handoff(site.manager.manifest), 2 * k), 0xFFFF0 + 2 * k;
            a in flat && a + 1 in flat && word % 256 == flat[a] && word / 256 == flat[a + 1]
  {
    hide Handoff;
  }

  lemma FetchFate(site: Site, k: nat, data: u16, first: u16, second: u16, io: Answers)
    requires k < 8 && |site.store.bytes| == 0x40000
    ensures FateOf(Visible(site), RAM_ADDRESSES, Fetch(k, data, first, second), io)
            == if first == Load16(Handoff(site.manager.manifest), 2 * k) == second then Done else PadsDiffer
  {
    hide Handoff; hide Visible; hide Load16; hide LaneByte;
    var a, e, flat, word := 0xFFFF0 + 2 * k, Fetch(k, data, first, second), Visible(site), Load16(Handoff(site.manager.manifest), 2 * k);
    VectorWord(site, k);
    PairShown(flat, a, word, first);
    PairShown(flat, a, word, second);
    var chosen := PinSelected(a, false);
    assert chosen == {a, a + 1};
    assert a in chosen && a + 1 in chosen && chosen <= flat.Keys;
    var shown := map b | b in chosen :: flat[b];
    assert shown[a] == flat[a] && shown[a + 1] == flat[a + 1];
    assert PinsShow(e, shown) <==> first == word == second;
  }

  lemma FetchDriven(site: Site, k: nat, data: u16, first: u16, second: u16, w: u16)
    requires k < 8 && |site.store.bytes| == 0x40000 && DrivesSelected(Visible(site), Fetch(k, data, first, second), w)
    ensures w == Load16(Handoff(site.manager.manifest), 2 * k)
  {
    hide Handoff; hide Visible; hide Load16; hide LaneByte;
    var a := 0xFFFF0 + 2 * k;
    VectorWord(site, k);
    PairShown(Visible(site), a, Load16(Handoff(site.manager.manifest), 2 * k), w);
    assert a in PinSelected(a, false) && a + 1 in PinSelected(a, false);
  }

  /** In every reachable state that is executing: the words the processor fetches
      from its reset vector are the ones of the staged workload, and a fetch ends
      the execution exactly if the pins do not show them. */
  lemma FetchesHandoff(start: Machine, steps: seq<Step>, input: ServiceInput, k: nat, data: u16, first: u16, second: u16)
    requires Initial(start) && AllPlausible(steps) && k < 8 && input.event == Fetch(k, data, first, second)
    requires var s := SupervisorRuns.Run(start, steps);
             s.exec.active && s.site.manager.state.Running? && !Overdue(s, s.log.clock + input.check)
    ensures var s := SupervisorRuns.Run(start, steps);
            var r, bytes := Service(s, input), Handoff(s.site.manager.manifest);
            var word := Load16(bytes, 2 * k);
            if first == word == second then GoesOn(s, r) && r.exec.stats.lastDataValid && r.exec.stats.lastData == word
            else EndedBy(r, Faulted, BusFault)
  {
    hide SupervisorRuns.Run; hide Initial; hide AllPlausible; hide Service; hide Visible; hide Handoff; hide FateOf; hide Replies;
    hide DrivesSelected; hide Counts; hide Polled; hide Safe; hide TallyOf; hide FlatNext;
    ServiceVerdict(start, steps, input);
    ServiceMemory(start, steps, input, Tally(0, 0, 0, 0, 0));
    var s := SupervisorRuns.Run(start, steps);
    FetchFate(s.site, k, data, first, second, Replies(Polled(s, input), input.event));
    if CycleFate(s, input).Done? { FetchDriven(s.site, k, data, first, second, Service(s, input).exec.stats.lastData); }
  }
}
