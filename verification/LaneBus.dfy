/** One clock-stepped bus cycle: pins, byte lanes, the RAM/ROM backend, and the
    flat byte memory that the processor is promised. */
module LaneBus {
  import opened Words

  datatype Lanes = NoLanes | Low | High | Word

  datatype CycleType = MemRead | MemWrite | IoRead | IoWrite | InterruptAck | Unsupported

  function DecodeLanes(a0: bool, bheN: bool): Lanes {
    if !a0 && !bheN then Word else if !a0 then Low else if !bheN then High else NoLanes
  }

  /** IOM is high for memory, DTR low for a read, INTA active low. */
  function DecodeType(iom: bool, dtr: bool, intaN: bool): CycleType {
    if !intaN then InterruptAck
    else if iom then (if !dtr then MemRead else MemWrite)
    else if !dtr then IoRead else IoWrite
  }

  predicate HasLow(lanes: Lanes) { lanes.Low? || lanes.Word? }

  predicate HasHigh(lanes: Lanes) { lanes.High? || lanes.Word? }

  // ---- the multiplexed pins ---------------------------------------------------

  /** The GPIO that carries each AD line. */
  const AD_GPIO: seq<nat> := [26, 19, 13, 6, 15, 0, 10, 12, 11, 22, 27, 17, 14, 3, 2, 4]

  function LanePins(base: nat): set<nat>
    requires base + 8 <= 16
  {
    set i | base <= i < base + 8 :: AD_GPIO[i]
  }

  /** The look-up tables: the pins that carry the ones of a byte. */
  function LutPins(value: byte, base: nat): set<nat>
    requires base + 8 <= 16
  {
    set i | base <= i < base + 8 && Bit(value, i - base) :: AD_GPIO[i]
  }

  /** The pins driven high, and the pins driven at all. */
  function DrivenHigh(value: u16, lanes: Lanes): set<nat> {
    (if HasLow(lanes) then LutPins(value % 256, 0) else {}) + (if HasHigh(lanes) then LutPins(value / 256, 8) else {})
  }

  function Driven(lanes: Lanes): set<nat> {
    (if HasLow(lanes) then LanePins(0) else {}) + (if HasHigh(lanes) then LanePins(8) else {})
  }

  /** `decode_ad`: the word read back from the levels of all pins. */
  function DecodeAd(high: set<nat>): u16 {
    ValueBound(Levels(high));
    Pow2Of32();
    assert Pow2(16) == 0x1_0000;
    Value(Levels(high))
  }

  predicate ReadbackMatches(lanes: Lanes, driven: u16, sampled: u16) {
    match lanes
    case Word => driven == sampled
    case Low => driven % 256 == sampled % 256
    case High => driven / 256 == sampled / 256
    case NoLanes => false
  }

  lemma WiringInjective(i: nat, j: nat)
    requires i < 16 && j < 16 && AD_GPIO[i] == AD_GPIO[j]
    ensures i == j
  {
  }

  /** The levels of the sixteen AD lines. */
  function Levels(high: set<nat>): (bits: seq<bool>)
    ensures |bits| == 16 && forall i :: 0 <= i < 16 ==> bits[i] == (AD_GPIO[i] in high)
  {
    seq(16, i requires 0 <= i < 16 => AD_GPIO[i] in high)
  }

  /** The lines of a driven lane carry the bits of its byte. */
  lemma LaneLevel(high: set<nat>, value: byte, base: nat, i: nat)
    requires (base == 0 || base == 8) && i < 8
    requires high * LanePins(base) == LutPins(value, base)
    ensures Levels(high)[base + i] == Bit(value, i)
  {
    hide Bit;
    var pin := AD_GPIO[base + i];
    assert pin in LanePins(base);
    assert pin in high <==> pin in LutPins(value, base);
    if pin in high {
      var j :| base <= j < base + 8 && Bit(value, j - base) && AD_GPIO[j] == pin;
      WiringInjective(base + i, j);
    }
  }

  /** A lane that is driven reads back the byte that was put on it. */
  lemma LaneReadsBack(high: set<nat>, value: byte, base: nat)
    requires base == 0 || base == 8
    requires high * LanePins(base) == LutPins(value, base)
    ensures if base == 0 then DecodeAd(high) % 256 == value else DecodeAd(high) / 256 == value
  {
    hide Bit; hide Value; hide Pow2; hide LanePins; hide LutPins; hide Levels;
    var bits := Levels(high);
    var lane := bits[base..base + 8];
    forall i | 0 <= i < 8
      ensures lane[i] == Bit(value, i)
    {
      LaneLevel(high, value, base, i);
    }
    Pow2Of32();
    ValueOfBits(value, lane);
    ValueSplit(bits, 8);
    ValueBound(bits[..8]);
    if base == 0 { assert lane == bits[..8]; } else { assert lane == bits[8..]; }
  }

  /** Whatever level every other pin has, an undisturbed readback matches, and
      the pins of an unselected lane are not driven. */
  lemma DriveReadsBack(value: u16, lanes: Lanes, elsewhere: set<nat>)
    requires !lanes.NoLanes? && elsewhere !! Driven(lanes)
    ensures ReadbackMatches(lanes, value, DecodeAd(DrivenHigh(value, lanes) + elsewhere))
    ensures !HasLow(lanes) ==> Driven(lanes) !! LanePins(0)
    ensures !HasHigh(lanes) ==> Driven(lanes) !! LanePins(8)
  {
    var high := DrivenHigh(value, lanes) + elsewhere;
    LanesDisjoint();
    if HasLow(lanes) {
      assert high * LanePins(0) == LutPins(value % 256, 0);
      LaneReadsBack(high, value % 256, 0);
    }
    if HasHigh(lanes) {
      assert high * LanePins(8) == LutPins(value / 256, 8);
      LaneReadsBack(high, value / 256, 8);
    }
  }

  lemma LanesDisjoint()
    ensures LanePins(0) !! LanePins(8)
    ensures forall v: byte :: LutPins(v, 0) <= LanePins(0) && LutPins(v, 8) <= LanePins(8)
  {
    forall p | p in LanePins(0) && p in LanePins(8)
      ensures false
    {
      var i :| 0 <= i < 8 && AD_GPIO[i] == p;
      var j :| 8 <= j < 16 && AD_GPIO[j] == p;
      WiringInjective(i, j);
    }
  }

  // ---- the backend ----------------------------------------------------------------

  datatype Memory = Memory(ram: seq<byte>, ramBase: nat, rom: seq<byte>, romBase: nat)

  predicate Contains(base: nat, size: nat, address: nat) {
    size != 0 && address >= base && address - base < size
  }

  predicate InRam(m: Memory, address: nat) { Contains(m.ramBase, |m.ram|, address) }

  function Read8(m: Memory, address: nat): Option<byte> {
    if InRam(m, address) then Some(m.ram[address - m.ramBase])
    else if Contains(m.romBase, |m.rom|, address) then Some(m.rom[address - m.romBase])
    else None
  }

  function Read16(m: Memory, address: nat): Option<u16> {
    var lo, hi := Read8(m, address), Read8(m, address + 1);
    if lo.Some? && hi.Some? then Some(lo.value + 256 * hi.value) else None
  }

  function Write8(m: Memory, address: nat, value: byte): Option<Memory> {
    if InRam(m, address) then Some(m.(ram := m.ram[address - m.ramBase := value])) else None
  }

  function Write16(m: Memory, address: nat, value: u16): Option<Memory> {
    if InRam(m, address) && InRam(m, address + 1)
    then Some(m.(ram := m.ram[address - m.ramBase := value % 256][address + 1 - m.ramBase := value / 256]))
    else None
  }

  function LaneRead(m: Memory, address: nat, lanes: Lanes): Option<u16> {
    match lanes
    case Word => Read16(m, address)
    case Low => Read8(m, address)
    case High => var v := Read8(m, address); if v.Some? then Some(256 * v.value) else None
    case NoLanes => None
  }

  function LaneWrite(m: Memory, address: nat, lanes: Lanes, value: u16): Option<Memory> {
    match lanes
    case Word => Write16(m, address, value)
    case Low => Write8(m, address, value % 256)
    case High => Write8(m, address, value / 256)
    case NoLanes => None
  }

  // ---- the flat memory ----------------------------------------------------------------

  /** The addresses a cycle selects, under A0 and BHE. */
  function Selected(address: nat, lanes: Lanes): set<nat> {
    match lanes
    case Word => {address, address + 1}
    case NoLanes => {}
    case _ => {address}
  }

  /** The byte an address has in a 16-bit word on the bus: even addresses are
      on AD0-7, odd ones on AD8-15. */
  function LaneByte(word: u16, address: nat): byte {
    if address % 2 == 0 then word % 256 else word / 256
  }

  /** What A0 guarantees about an address. */
  predicate Aligned(address: nat, lanes: Lanes) {
    (HasLow(lanes) ==> address % 2 == 0) && (lanes.High? ==> address % 2 == 1)
  }

  type Flat = map<nat, byte>

  const SPACE: nat := 0x10_0002

  /** The bytes the processor is promised: the RAM at its base, and the ROM at
      its own where the RAM does not cover it. */
  function Image(m: Memory): Flat {
    map a: nat | a < SPACE && (Covers(m.ramBase, m.ram, a) || Covers(m.romBase, m.rom, a)) ::
      if Covers(m.ramBase, m.ram, a) then m.ram[a - m.ramBase] else m.rom[a - m.romBase]
  }

  predicate Covers(base: nat, bytes: seq<byte>, a: nat) { base <= a < base + |bytes| }

  lemma ImageByte(m: Memory, a: nat)
    requires a < SPACE
    ensures Read8(m, a) == if a in Image(m) then Some(Image(m)[a]) else None
  {
  }

  /** Reads drive exactly the bytes of the selected addresses, and nothing on a
      lane that is not selected. */
  lemma ReadsAreFlat(m: Memory, address: nat, lanes: Lanes)
    requires Aligned(address, lanes) && address + 1 < SPACE && !lanes.NoLanes?
    ensures LaneRead(m, address, lanes).Some? <==> Selected(address, lanes) <= Image(m).Keys
    ensures LaneRead(m, address, lanes).Some? ==>
              var word := LaneRead(m, address, lanes).value;
              && (forall a :: a in Selected(address, lanes) ==> LaneByte(word, a) == Image(m)[a])
              && (!HasLow(lanes) ==> word % 256 == 0) && (!HasHigh(lanes) ==> word / 256 == 0)
  {
    var image := Image(m);
    ImageByte(m, address);
    ImageByte(m, address + 1);
    if lanes.Word? && LaneRead(m, address, lanes).Some? {
      var word := LaneRead(m, address, lanes).value;
      assert LaneByte(word, address) == image[address];
      assert LaneByte(word, address + 1) == image[address + 1];
    }
  }

  /** Writes need every selected byte to be RAM, change exactly those bytes, and
      otherwise change nothing at all. */
  lemma WritesAreFlat(m: Memory, address: nat, lanes: Lanes, value: u16)
    requires Aligned(address, lanes) && address + 1 < SPACE && !lanes.NoLanes?
    ensures LaneWrite(m, address, lanes, value).Some? <==> forall a :: a in Selected(address, lanes) ==> InRam(m, a)
    ensures LaneWrite(m, address, lanes, value).Some? ==>
              var after := LaneWrite(m, address, lanes, value).value;
              && after == m.(ram := after.ram) && |after.ram| == |m.ram|
              && Image(after) == Image(m) + map a | a in Selected(address, lanes) :: LaneByte(value, a)
  {
    if LaneWrite(m, address, lanes, value).Some? {
      var after := LaneWrite(m, address, lanes, value).value;
      WrittenImage(m, address, lanes, value);
      assert after == m.(ram := after.ram) && |after.ram| == |m.ram|;
    } else {
      assert address in Selected(address, lanes);
    }
  }

  lemma WrittenImage(m: Memory, address: nat, lanes: Lanes, value: u16)
    requires Aligned(address, lanes) && address + 1 < SPACE && !lanes.NoLanes? && LaneWrite(m, address, lanes, value).Some?
    ensures Image(LaneWrite(m, address, lanes, value).value)
            == Image(m) + map a | a in Selected(address, lanes) :: LaneByte(value, a)
  {
    var after := LaneWrite(m, address, lanes, value).value;
    var stored := map a | a in Selected(address, lanes) :: LaneByte(value, a);
    assert Image(after).Keys == (Image(m) + stored).Keys by {
      assert |after.ram| == |m.ram| && after == m.(ram := after.ram);
      assert forall a :: a in Selected(address, lanes) ==> a < SPACE && InRam(m, a);
    }
    forall a | a in Image(after)
      ensures Image(after)[a] == (Image(m) + stored)[a]
    {
      WrittenByte(m, address, lanes, value, a);
      ImageByte(after, a);
      ImageByte(m, a);
    }
  }

  lemma WrittenByte(m: Memory, address: nat, lanes: Lanes, value: u16, a: nat)
    requires Aligned(address, lanes) && !lanes.NoLanes? && LaneWrite(m, address, lanes, value).Some?
    ensures var after := LaneWrite(m, address, lanes, value).value;
            Read8(after, a) == if a in Selected(address, lanes) then Some(LaneByte(value, a)) else Read8(m, a)
  {
  }

  // ---- one bus cycle --------------------------------------------------------------------

  /** How the two data clocks of a cycle end: a clock failure, or the word on
      the pins at each of them. */
  datatype Finish = Broken | Samples(first: u16, second: u16)

  /** What the stepped clock brings: a failed step, no address strobe within
      the limit, or a cycle with its control lines and data word. */
  datatype BusEvent =
    | Stalled
    | Silent
    | Cycle(address: nat, bheN: bool, iom: bool, dtr: bool, intaN: bool, data: u16, finish: Finish)

  predicate WellFormed(e: BusEvent) { e.Cycle? ==> e.address < 0x10_0000 }

  function LanesOf(e: BusEvent): Lanes
    requires e.Cycle?
  {
    DecodeLanes(e.address % 2 == 1, e.bheN)
  }

  function TypeOf(e: BusEvent): CycleType
    requires e.Cycle?
  {
    var t := DecodeType(e.iom, e.dtr, e.intaN);
    if !t.InterruptAck? && LanesOf(e).NoLanes? then Unsupported else t
  }

  /** What the I/O callbacks answer to this cycle. */
  datatype Vector = Vector(drive: bool, vector: byte)

  datatype Answers = Answers(read: Option<u16>, write: bool, ack: Option<Vector>)

  datatype Counters = Counters(
    cycles: u32, memoryReads: u32, memoryWrites: u32, ioReads: u32, ioWrites: u32, acks: u32)

  /** A completed cycle counts once by its type and once in all. */
  function Count(c: Counters, t: CycleType): Counters {
    var d := c.(cycles := Wrap32(c.cycles + 1));
    match t
    case MemRead => d.(memoryReads := Wrap32(c.memoryReads + 1))
    case MemWrite => d.(memoryWrites := Wrap32(c.memoryWrites + 1))
    case IoRead => d.(ioReads := Wrap32(c.ioReads + 1))
    case IoWrite => d.(ioWrites := Wrap32(c.ioWrites + 1))
    case _ => d.(acks := Wrap32(c.acks + 1))
  }

  datatype Stats = Stats(
    counters: Counters,
    seen: bool, firstAddress: nat, lastAddress: nat, lastType: CycleType, lastLanes: Lanes,
    lastData: u16, lastDataValid: bool,
    unmapped: bool, invalidLane: bool, padMismatch: bool, noCycle: bool, clockFailure: bool, ackFlag: bool)

  const NO_STATS: Stats :=
    Stats(Counters(0, 0, 0, 0, 0, 0), false, 0, 0, MemRead, NoLanes, 0, false, false, false, false, false, false, false)

  function Cleared(s: Stats): Stats {
    s.(unmapped := false, invalidLane := false, padMismatch := false, noCycle := false,
       clockFailure := false, ackFlag := false)
  }

  datatype Served = Served(memory: Memory, stats: Stats, completed: bool)

  function Observed(s: Stats, e: BusEvent): Stats
    requires e.Cycle?
  {
    s.(seen := true, firstAddress := if s.seen then s.firstAddress else e.address,
       lastAddress := e.address, lastType := TypeOf(e), lastLanes := LanesOf(e), lastDataValid := false)
  }

  function Failed(m: Memory, s: Stats): Served { Served(m, s, false) }

  function Completed(m: Memory, s: Stats, t: CycleType): Served {
    Served(m, s.(counters := Count(s.counters, t)), true)
  }

  /** The two data clocks of a cycle whose word the firmware drives. */
  function FinishRead(m: Memory, s: Stats, e: BusEvent, driven: u16): Served
    requires e.Cycle?
  {
    var t := s.(lastData := driven, lastDataValid := true);
    if e.finish.Broken? then Failed(m, t.(clockFailure := true))
    else if !ReadbackMatches(LanesOf(e), driven, e.finish.first) || !ReadbackMatches(LanesOf(e), driven, e.finish.second)
    then Failed(m, t.(padMismatch := true))
    else Completed(m, t, TypeOf(e))
  }

  function FinishAck(m: Memory, s: Stats, e: BusEvent, ack: Option<Vector>): Served
    requires e.Cycle?
  {
    var t := s.(ackFlag := true);
    if ack.None? then Failed(m, t)
    else if e.finish.Broken? then Failed(m, t.(clockFailure := true))
    else Completed(m, t.(lastData := if ack.value.drive then ack.value.vector else 0,
                         lastDataValid := ack.value.drive), TypeOf(e))
  }

  /** The write data is sampled first; `stored` is the memory afterwards, if the
      address or the port takes it. */
  function FinishWrite(m: Memory, s: Stats, e: BusEvent, stored: Option<Memory>): Served
    requires e.Cycle?
  {
    var t := s.(lastData := e.data, lastDataValid := true);
    if e.finish.Broken? then Failed(m, s.(clockFailure := true))
    else if stored.None? then Failed(m, t.(unmapped := true))
    else Completed(stored.value, t, TypeOf(e))
  }

  function ServeCycle(m: Memory, s: Stats, e: BusEvent, io: Answers): Served
    requires e.Cycle?
  {
    match TypeOf(e)
    case InterruptAck => FinishAck(m, s, e, io.ack)
    case Unsupported => Failed(m, s.(invalidLane := true))
    case MemRead =>
      var word := LaneRead(m, e.address, LanesOf(e));
      if word.None? then Failed(m, s.(unmapped := true)) else FinishRead(m, s, e, word.value)
    case IoRead =>
      if io.read.None? then Failed(m, s.(unmapped := true)) else FinishRead(m, s, e, io.read.value)
    case MemWrite => FinishWrite(m, s, e, LaneWrite(m, e.address, LanesOf(e), e.data))
    case IoWrite => FinishWrite(m, s, e, if io.write then Some(m) else None)
  }

  /** `rp86_clock_stepped_service_cycle`. */
  function Serve(m: Memory, stats: Stats, e: BusEvent, io: Answers): Served {
    var s := Cleared(stats);
    match e
    case Stalled => Failed(m, s.(clockFailure := true))
    case Silent => Failed(m, s.(noCycle := true))
    case Cycle(_, _, _, _, _, _, _) => ServeCycle(m, Observed(s, e), e, io)
  }

  /** Serving a cycle counts it exactly if it completes. */
  lemma ServeCounts(m: Memory, stats: Stats, e: BusEvent, io: Answers)
    ensures var r := Serve(m, stats, e, io);
            && (r.completed ==> e.Cycle? && !TypeOf(e).Unsupported?)
            && r.stats.counters == if r.completed then Count(stats.counters, TypeOf(e)) else stats.counters
  {
    hide Count; hide TypeOf; hide LanesOf; hide LaneRead; hide LaneWrite; hide ReadbackMatches;
  }

  /** The memory after a cycle: stored to by a completed memory write only. */
  lemma ServeStores(m: Memory, stats: Stats, e: BusEvent, io: Answers)
    ensures var r := Serve(m, stats, e, io);
            if r.completed && TypeOf(e).MemWrite?
            then LaneWrite(m, e.address, LanesOf(e), e.data) == Some(r.memory)
            else r.memory == m
  {
    hide Count; hide TypeOf; hide LanesOf; hide LaneRead; hide LaneWrite; hide ReadbackMatches;
  }

  /** Serving a cycle neither resizes the RAM nor moves anything. */
  lemma ServeShape(m: Memory, stats: Stats, e: BusEvent, io: Answers)
    ensures |Serve(m, stats, e, io).memory.ram| == |m.ram|
  {
    ServeStores(m, stats, e, io);
    hide Serve; hide TypeOf; hide LanesOf;
  }

  /** Only the address of the last cycle is kept, and it is a bus address. */
  lemma ServeAddress(m: Memory, stats: Stats, e: BusEvent, io: Answers)
    requires WellFormed(e) && stats.lastAddress < 0x10_0000
    ensures Serve(m, stats, e, io).stats.lastAddress < 0x10_0000
  {
    hide Count; hide TypeOf; hide LanesOf; hide LaneRead; hide LaneWrite; hide ReadbackMatches;
  }

  lemma ServeDrives(m: Memory, stats: Stats, e: BusEvent, io: Answers)
    ensures var r := Serve(m, stats, e, io);
            r.completed && TypeOf(e).MemRead? ==>
              && r.stats.lastDataValid && e.finish.Samples?
              && LaneRead(m, e.address, LanesOf(e)) == Some(r.stats.lastData)
              && ReadbackMatches(LanesOf(e), r.stats.lastData, e.finish.first)
              && ReadbackMatches(LanesOf(e), r.stats.lastData, e.finish.second)
  {
    hide Count; hide TypeOf; hide LanesOf; hide LaneRead; hide LaneWrite; hide ReadbackMatches;
  }

  // ---- the flat memory on the pins ------------------------------------------------------

  /** The flat addresses that take a write. */
  function Writable(m: Memory): set<nat> { set a: nat | a < SPACE && Covers(m.ramBase, m.ram, a) }

  /** The bytes of the addressed word that the pins select: the even one if A0
      is low, the odd one if BHE# is low. */
  function PinSelected(address: nat, bheN: bool): set<nat> {
    (if address % 2 == 0 then {address} else {}) + (if !bheN then {address / 2 * 2 + 1} else {})
  }

  /** How a bus cycle comes out. */
  datatype Fate = Done | NoStrobe | ClockLost | NoLaneSelected | Unbacked | PadsDiffer | AckRefused

  /** Both samples of the pins show these bytes. */
  predicate PinsShow(e: BusEvent, bytes: Flat)
    requires e.Cycle? && e.finish.Samples?
  {
    forall a :: a in bytes ==> LaneByte(e.finish.first, a) == LaneByte(e.finish.second, a) == bytes[a]
  }

  /** What a flat byte memory makes of a cycle, told from the levels of the pins
      alone: INTA# low is an acknowledge; otherwise IOM high is memory and DTR
      low a read. A read needs every selected byte, and both samples to show it;
      a write needs every selected byte to be writable. */
  function FateOf(flat: Flat, writable: set<nat>, e: BusEvent, io: Answers): Fate {
    match e
    case Stalled => ClockLost
    case Silent => NoStrobe
    case Cycle(address, bheN, iom, dtr, intaN, data, finish) =>
      var chosen := PinSelected(address, bheN);
      if !intaN then
        if io.ack.None? then AckRefused else if finish.Broken? then ClockLost else Done
      else if chosen == {} then NoLaneSelected
      else if !dtr then
        if (if iom then !(chosen <= flat.Keys) else io.read.None?) then Unbacked
        else if finish.Broken? then ClockLost
        else if PinsShow(e, map a | a in chosen :: if iom then flat[a] else LaneByte(io.read.value, a)) then Done
        else PadsDiffer
      else
        if finish.Broken? then ClockLost
        else if (if iom then !(chosen <= writable) else !io.write) then Unbacked
        else Done
  }

  /** A completed memory write stores the selected bytes; nothing else changes any. */
  function FlatNext(flat: Flat, writable: set<nat>, e: BusEvent, io: Answers): Flat {
    if FateOf(flat, writable, e, io).Done? && e.intaN && e.iom && e.dtr
    then flat + map a | a in PinSelected(e.address, e.bheN) :: LaneByte(e.data, a)
    else flat
  }

  /** The decoders of the firmware against the levels of the pins. */
  lemma PinsDecode(e: BusEvent)
    requires e.Cycle?
    ensures Selected(e.address, LanesOf(e)) == PinSelected(e.address, e.bheN) && Aligned(e.address, LanesOf(e))
    ensures LanesOf(e).NoLanes? <==> PinSelected(e.address, e.bheN) == {}
    ensures HasLow(LanesOf(e)) <==> e.address % 2 == 0
    ensures HasHigh(LanesOf(e)) <==> !e.bheN
    ensures TypeOf(e).InterruptAck? <==> !e.intaN
    ensures TypeOf(e).Unsupported? <==> e.intaN && PinSelected(e.address, e.bheN) == {}
    ensures TypeOf(e).MemRead? <==> e.intaN && PinSelected(e.address, e.bheN) != {} && e.iom && !e.dtr
    ensures TypeOf(e).MemWrite? <==> e.intaN && PinSelected(e.address, e.bheN) != {} && e.iom && e.dtr
    ensures TypeOf(e).IoRead? <==> e.intaN && PinSelected(e.address, e.bheN) != {} && !e.iom && !e.dtr
    ensures TypeOf(e).IoWrite? <==> e.intaN && PinSelected(e.address, e.bheN) != {} && !e.iom && e.dtr
  {
    if e.address % 2 == 0 { assert e.address in PinSelected(e.address, e.bheN); }
    if !e.bheN { assert e.address / 2 * 2 + 1 in PinSelected(e.address, e.bheN); }
  }

  /** The counters add up, modulo 2^32. */
  predicate Balanced(c: Counters) {
    c.cycles == Wrap32(c.memoryReads + c.memoryWrites + c.ioReads + c.ioWrites + c.acks)
  }

  lemma BalanceAfter(sum: nat, cycles: u32, counter: u32)
    requires cycles == Wrap32(sum + counter)
    ensures Wrap32(cycles + 1) == Wrap32(sum + Wrap32(counter + 1))
  {
    Wrap32Add(sum + counter, 1);
    Wrap32Add(counter + 1, sum);
  }

  lemma CountBalances(c: Counters, t: CycleType)
    requires Balanced(c)
    ensures Balanced(Count(c, t))
  {
    hide Wrap32;
    match t
    case MemRead => BalanceAfter(c.memoryWrites + c.ioReads + c.ioWrites + c.acks, c.cycles, c.memoryReads);
    case MemWrite => BalanceAfter(c.memoryReads + c.ioReads + c.ioWrites + c.acks, c.cycles, c.memoryWrites);
    case IoRead => BalanceAfter(c.memoryReads + c.memoryWrites + c.ioWrites + c.acks, c.cycles, c.ioReads);
    case IoWrite => BalanceAfter(c.memoryReads + c.memoryWrites + c.ioReads + c.acks, c.cycles, c.ioWrites);
    case _ => BalanceAfter(c.memoryReads + c.memoryWrites + c.ioReads + c.ioWrites, c.cycles, c.acks);
  }

  lemma ReadbackBytes(lanes: Lanes, address: nat, word: u16, sample: u16, a: nat)
    requires Aligned(address, lanes) && ReadbackMatches(lanes, word, sample) && a in Selected(address, lanes)
    ensures LaneByte(sample, a) == LaneByte(word, a)
  {
  }

  lemma ReadbackExactly(lanes: Lanes, address: nat, word: u16, sample: u16)
    requires Aligned(address, lanes) && !lanes.NoLanes?
    ensures ReadbackMatches(lanes, word, sample)
            <==> forall a :: a in Selected(address, lanes) ==> LaneByte(sample, a) == LaneByte(word, a)
  {
    if forall a :: a in Selected(address, lanes) ==> LaneByte(sample, a) == LaneByte(word, a) {
      assert address in Selected(address, lanes);
      if lanes.Word? { assert address + 1 in Selected(address, lanes); }
    } else {
      var a :| a in Selected(address, lanes) && LaneByte(sample, a) != LaneByte(word, a);
      if ReadbackMatches(lanes, word, sample) { ReadbackBytes(lanes, address, word, sample, a); }
    }
  }

  /** The flags of a served cycle say how it came out. */
  predicate Reports(r: Served, fate: Fate, e: BusEvent) {
    && r.completed == fate.Done? && r.stats.noCycle == fate.NoStrobe? && r.stats.clockFailure == fate.ClockLost?
    && r.stats.invalidLane == fate.NoLaneSelected? && r.stats.unmapped == fate.Unbacked?
    && r.stats.padMismatch == fate.PadsDiffer? && r.stats.ackFlag == (e.Cycle? && !e.intaN)
  }

  lemma MemReadFate(m: Memory, stats: Stats, e: BusEvent, io: Answers)
    requires WellFormed(e) && e.Cycle? && TypeOf(e).MemRead?
    ensures Reports(Serve(m, stats, e, io), FateOf(Image(m), Writable(m), e, io), e)
  {
    hide TypeOf; hide LanesOf; hide Image; hide LaneRead; hide ReadbackMatches; hide Selected; hide Count; hide Writable; hide PinSelected;
    PinsDecode(e);
    ReadsAreFlat(m, e.address, LanesOf(e));
    var word := LaneRead(m, e.address, LanesOf(e));
    if word.Some? && e.finish.Samples? {
      ReadbackExactly(LanesOf(e), e.address, word.value, e.finish.first);
      ReadbackExactly(LanesOf(e), e.address, word.value, e.finish.second);
    }
  }

  lemma MemWriteFate(m: Memory, stats: Stats, e: BusEvent, io: Answers)
    requires WellFormed(e) && e.Cycle? && TypeOf(e).MemWrite?
    ensures Reports(Serve(m, stats, e, io), FateOf(Image(m), Writable(m), e, io), e)
  {
    hide TypeOf; hide LanesOf; hide Image; hide LaneWrite; hide Selected; hide Count; hide PinSelected;
    PinsDecode(e);
    WritesAreFlat(m, e.address, LanesOf(e), e.data);
    SelectedInSpace(e);
    assert forall a :: a in Selected(e.address, LanesOf(e)) ==> (a in Writable(m) <==> InRam(m, a));
  }

  lemma SelectedInSpace(e: BusEvent)
    requires WellFormed(e) && e.Cycle?
    ensures forall a :: a in Selected(e.address, LanesOf(e)) ==> a < SPACE
  {
  }

  lemma IoReadFate(m: Memory, stats: Stats, e: BusEvent, io: Answers)
    requires e.Cycle? && TypeOf(e).IoRead?
    ensures Reports(Serve(m, stats, e, io), FateOf(Image(m), Writable(m), e, io), e)
  {
    hide TypeOf; hide LanesOf; hide Image; hide ReadbackMatches; hide Selected; hide Count; hide Writable; hide PinSelected;
    PinsDecode(e);
    if io.read.Some? && e.finish.Samples? {
      ReadbackExactly(LanesOf(e), e.address, io.read.value, e.finish.first);
      ReadbackExactly(LanesOf(e), e.address, io.read.value, e.finish.second);
    }
  }

  lemma OtherFate(m: Memory, stats: Stats, e: BusEvent, io: Answers)
    requires !e.Cycle? || TypeOf(e).InterruptAck? || TypeOf(e).Unsupported? || TypeOf(e).IoWrite?
    ensures Reports(Serve(m, stats, e, io), FateOf(Image(m), Writable(m), e, io), e)
  {
    hide TypeOf; hide LanesOf; hide Image; hide Selected; hide Count; hide Writable; hide PinSelected;
    if e.Cycle? { PinsDecode(e); }
  }

  lemma SameWritable(m: Memory, n: Memory)
    requires n == m.(ram := n.ram) && |n.ram| == |m.ram|
    ensures Writable(n) == Writable(m)
  {
  }

  /** One cycle: how it comes out, what the flags report and what it leaves in
      memory is what the flat memory says; a completed memory read put the flat
      bytes on the pins. */
  lemma ServeRefines(m: Memory, stats: Stats, e: BusEvent, io: Answers)
    requires WellFormed(e)
    ensures var r, fate := Serve(m, stats, e, io), FateOf(Image(m), Writable(m), e, io);
            && Reports(r, fate, e)
            && Image(r.memory) == FlatNext(Image(m), Writable(m), e, io) && Writable(r.memory) == Writable(m)
            && r.memory == m.(ram := r.memory.ram) && |r.memory.ram| == |m.ram| && (!fate.Done? ==> r.memory == m)
            && (fate.Done? && e.intaN && e.iom && !e.dtr ==>
                  r.stats.lastDataValid && DrivesSelected(Image(m), e, r.stats.lastData))
  {
    hide FateOf; hide Serve; hide Image; hide Writable; hide TypeOf; hide LanesOf; hide LaneWrite; hide PinSelected; hide Selected;
    ServeStores(m, stats, e, io);
    var r := Serve(m, stats, e, io);
    if e.Cycle? { PinsDecode(e); }
    if e.Cycle? && TypeOf(e).MemRead? {
      MemReadFate(m, stats, e, io);
      if r.completed { ReadDrives(m, stats, e, io); }
    } else if e.Cycle? && TypeOf(e).MemWrite? {
      MemWriteFate(m, stats, e, io);
      WritesAreFlat(m, e.address, LanesOf(e), e.data);
    } else if e.Cycle? && TypeOf(e).IoRead? {
      IoReadFate(m, stats, e, io);
    } else {
      OtherFate(m, stats, e, io);
    }
    if r.completed { DoneHasKind(Image(m), Writable(m), e, io); }
    SameWritable(m, r.memory);
  }

  lemma DoneHasKind(flat: Flat, writable: set<nat>, e: BusEvent, io: Answers)
    requires FateOf(flat, writable, e, io).Done?
    ensures e.Cycle? && (e.intaN ==> PinSelected(e.address, e.bheN) != {})
  {
  }

  lemma ReadDrives(m: Memory, stats: Stats, e: BusEvent, io: Answers)
    requires WellFormed(e) && Serve(m, stats, e, io).completed && TypeOf(e).MemRead?
    ensures var s := Serve(m, stats, e, io).stats;
            s.lastDataValid && DrivesSelected(Image(m), e, s.lastData)
  {
    ServeDrives(m, stats, e, io);
    PinsDecode(e);
    ReadsAreFlat(m, e.address, LanesOf(e));
    var word := Serve(m, stats, e, io).stats.lastData;
    hide Serve; hide TypeOf; hide LanesOf; hide Image; hide LaneRead; hide PinSelected;
    ReadbackExactly(LanesOf(e), e.address, word, e.finish.first);
    ReadbackExactly(LanesOf(e), e.address, word, e.finish.second);
  }

  /** The word a read cycle drove: the flat bytes on the selected lanes, nothing
      on the other, and both samples of the pins showed them. */
  predicate DrivesSelected(flat: Flat, e: BusEvent, word: u16)
    requires e.Cycle?
  {
    var chosen := PinSelected(e.address, e.bheN);
    && (forall a :: a in chosen ==> a in flat && LaneByte(word, a) == flat[a])
    && (e.address % 2 != 0 ==> word % 256 == 0) && (e.bheN ==> word / 256 == 0)
    && e.finish.Samples?
    && (forall a :: a in chosen ==> LaneByte(e.finish.first, a) == LaneByte(e.finish.second, a) == LaneByte(word, a))
  }

  lemma NothingSelected(address: nat, bheN: bool)
    ensures PinSelected(address, bheN) == {} <==> address % 2 == 1 && bheN
  {
    if address % 2 == 0 { assert address in PinSelected(address, bheN); }
    if !bheN { assert address / 2 * 2 + 1 in PinSelected(address, bheN); }
  }

  /** What the statistics keep of the last cycle, on the levels of its pins. */
  lemma ServeObserves(m: Memory, stats: Stats, e: BusEvent, io: Answers)
    requires e.Cycle?
    ensures var s := Serve(m, stats, e, io).stats;
            && s.seen && s.firstAddress == (if stats.seen then stats.firstAddress else e.address) && s.lastAddress == e.address
            && (HasLow(s.lastLanes) <==> e.address % 2 == 0) && (HasHigh(s.lastLanes) <==> !e.bheN)
            && s.lastType == (if !e.intaN then InterruptAck else if e.address % 2 == 1 && e.bheN then Unsupported
                              else if e.iom then (if e.dtr then MemWrite else MemRead)
                              else if e.dtr then IoWrite else IoRead)
            && (e.intaN && e.dtr && e.finish.Samples? && !(e.address % 2 == 1 && e.bheN) ==>
                  s.lastDataValid && s.lastData == e.data)
            && (!e.intaN && e.finish.Samples? && io.ack.Some? ==>
                  s.lastDataValid == io.ack.value.drive && s.lastData == if io.ack.value.drive then io.ack.value.vector else 0)
  {
    hide Count; hide LaneRead; hide LaneWrite; hide ReadbackMatches; hide TypeOf; hide LanesOf; hide PinSelected;
    PinsDecode(e);
    NothingSelected(e.address, e.bheN);
  }

  // ---- runs of cycles --------------------------------------------------------------------

  datatype Turn = Turn(event: BusEvent, io: Answers)

  function Run(m: Memory, stats: Stats, turns: seq<Turn>): Served
    decreases turns
  {
    if turns == [] then Served(m, stats, true)
    else
      var r := Serve(m, stats, turns[0].event, turns[0].io);
      Run(r.memory, r.stats, turns[1..])
  }

  /** The completed cycles of a run, by the levels of IOM, DTR and INTA#. */
  datatype Tally = Tally(memoryReads: nat, memoryWrites: nat, ioReads: nat, ioWrites: nat, acks: nat)

  function TallyOf(t: Tally, e: BusEvent): Tally
    requires e.Cycle?
  {
    if !e.intaN then t.(acks := t.acks + 1)
    else if e.iom && !e.dtr then t.(memoryReads := t.memoryReads + 1)
    else if e.iom then t.(memoryWrites := t.memoryWrites + 1)
    else if !e.dtr then t.(ioReads := t.ioReads + 1)
    else t.(ioWrites := t.ioWrites + 1)
  }

  /** The same cycles on the flat memory alone, counted as they complete. */
  function FlatRun(flat: Flat, writable: set<nat>, t: Tally, turns: seq<Turn>): (Flat, Tally)
    decreases turns
  {
    if turns == [] then (flat, t)
    else
      var e, io := turns[0].event, turns[0].io;
      FlatRun(FlatNext(flat, writable, e, io), writable,
              if FateOf(flat, writable, e, io).Done? then TallyOf(t, e) else t, turns[1..])
  }

  /** The five counters and their total, each modulo 2^32. */
  predicate Counts(c: Counters, t: Tally) {
    && c.memoryReads == Wrap32(t.memoryReads) && c.memoryWrites == Wrap32(t.memoryWrites)
    && c.ioReads == Wrap32(t.ioReads) && c.ioWrites == Wrap32(t.ioWrites) && c.acks == Wrap32(t.acks)
    && c.cycles == Wrap32(t.memoryReads + t.memoryWrites + t.ioReads + t.ioWrites + t.acks)
  }

  lemma CountTallies(c: Counters, t: Tally, e: BusEvent)
    requires e.Cycle? && Counts(c, t) && !TypeOf(e).Unsupported?
    ensures Counts(Count(c, TypeOf(e)), TallyOf(t, e))
  {
    hide Wrap32; hide TypeOf; hide PinSelected;
    PinsDecode(e);
    Wrap32Add(t.memoryReads, 1); Wrap32Add(t.memoryWrites, 1); Wrap32Add(t.ioReads, 1); Wrap32Add(t.ioWrites, 1); Wrap32Add(t.acks, 1);
    Wrap32Add(t.memoryReads + t.memoryWrites + t.ioReads + t.ioWrites + t.acks, 1);
  }

  /** Over any run the backend is the flat memory, which by itself, from the pins
      alone, decides every cycle; the ROM never changes; and every counter is the
      number of its completed cycles. */
  lemma {:induction false} RunRefines(m: Memory, stats: Stats, t: Tally, turns: seq<Turn>)
    requires Counts(stats.counters, t) && forall i :: 0 <= i < |turns| ==> WellFormed(turns[i].event)
    ensures var r := Run(m, stats, turns);
            var (flat, tally) := FlatRun(Image(m), Writable(m), t, turns);
            && Image(r.memory) == flat && r.memory == m.(ram := r.memory.ram) && |r.memory.ram| == |m.ram|
            && Counts(r.stats.counters, tally)
    decreases turns
  {
    hide Serve; hide Counts; hide Count; hide TypeOf; hide FlatNext; hide Image; hide FateOf; hide Writable; hide TallyOf; hide DrivesSelected;
    if turns != [] {
      var e, io := turns[0].event, turns[0].io;
      ServeRefines(m, stats, e, io);
      ServeCounts(m, stats, e, io);
      var r := Serve(m, stats, e, io);
      if r.completed { CountTallies(stats.counters, t, e); }
      RunRefines(r.memory, r.stats, if r.completed then TallyOf(t, e) else t, turns[1..]);
    }
  }
}
