/** The clock-stepped controller as the firmware runs it: RAM and statistics
    updated in place, cycle by cycle. */
module BusController {
  import opened Words
  import opened LaneBus

  class Controller {
    const ram: array<byte>
    const ramBase: nat
    const romBase: nat
    var rom: seq<byte>
    var stats: Stats

    ghost function View(): Memory
      reads this, ram
    {
      Memory(ram[..], ramBase, rom, romBase)
    }

    constructor (ram: array<byte>, ramBase: nat, rom: seq<byte>, romBase: nat)
      ensures this.ram == ram && this.ramBase == ramBase && this.romBase == romBase
      ensures View() == Memory(ram[..], ramBase, rom, romBase)
      ensures stats == NO_STATS
    {
      this.ram, this.ramBase, this.romBase := ram, ramBase, romBase;
      this.rom := rom;
      stats := NO_STATS;
    }

    method ReadByte(address: nat) returns (value: Option<byte>)
      ensures value == Read8(View(), address)
    {
      if Contains(ramBase, ram.Length, address) { return Some(ram[address - ramBase]); }
      if Contains(romBase, |rom|, address) { return Some(rom[address - romBase]); }
      return None;
    }

    method WriteByte(address: nat, value: byte) returns (ok: bool)
      modifies ram
      ensures ok == Write8(old(View()), address, value).Some?
      ensures View() == if ok then Write8(old(View()), address, value).value else old(View())
    {
      if !Contains(ramBase, ram.Length, address) { return false; }
      ram[address - ramBase] := value;
      return true;
    }

    method ReadWord(address: nat) returns (value: Option<u16>)
      ensures value == Read16(View(), address)
    {
      var lo := ReadByte(address);
      if lo.None? { return None; }
      var hi := ReadByte(address + 1);
      if hi.None? { return None; }
      var low: int, high: int := lo.value, hi.value;
      return Some(low + 256 * high);
    }

    method WriteWord(address: nat, value: u16) returns (ok: bool)
      modifies ram
      ensures ok == Write16(old(View()), address, value).Some?
      ensures View() == if ok then Write16(old(View()), address, value).value else old(View())
    {
      if !Contains(ramBase, ram.Length, address) { return false; }
      if !Contains(ramBase, ram.Length, address + 1) { return false; }
      var offset := address - ramBase;
      ram[offset] := value % 256;
      ram[offset + 1] := value / 256;
      return true;
    }

    method ReadLanes(address: nat, lanes: Lanes) returns (driven: Option<u16>)
      ensures driven == LaneRead(View(), address, lanes)
    {
      if lanes.Word? { driven := ReadWord(address); return; }
      if lanes.NoLanes? { return None; }
      var value := ReadByte(address);
      if value.None? { return None; }
      var shifted: int := value.value;
      driven := Some(if lanes.Low? then shifted else 256 * shifted);
    }

    method WriteLanes(address: nat, lanes: Lanes, value: u16) returns (ok: bool)
      modifies ram
      ensures ok == LaneWrite(old(View()), address, lanes, value).Some?
      ensures View() == if ok then LaneWrite(old(View()), address, lanes, value).value else old(View())
    {
      match lanes
      case Word => ok := WriteWord(address, value);
      case Low => ok := WriteByte(address, value % 256);
      case High => ok := WriteByte(address, value / 256);
      case NoLanes => return false;
    }

    /** Drive a word for two data clocks and compare the pins at each. */
    method CompleteRead(e: BusEvent, driven: u16) returns (ok: bool)
      requires e.Cycle?
      modifies this`stats
      ensures ok == FinishRead(View(), old(stats), e, driven).completed
      ensures !ok ==> stats == FinishRead(View(), old(stats), e, driven).stats
      ensures ok ==> stats.(counters := Count(stats.counters, TypeOf(e))) == FinishRead(View(), old(stats), e, driven).stats
    {
      stats := stats.(lastData := driven, lastDataValid := true);
      if e.finish.Broken? {
        stats := stats.(clockFailure := true);
        return false;
      }
      if !ReadbackMatches(LanesOf(e), driven, e.finish.first) || !ReadbackMatches(LanesOf(e), driven, e.finish.second) {
        stats := stats.(padMismatch := true);
        return false;
      }
      return true;
    }

    method ServiceCycle(e: BusEvent, io: Answers) returns (completed: bool)
      modifies this`stats, ram
      ensures Served(View(), stats, completed) == Serve(old(View()), old(stats), e, io)
    {
      stats := Cleared(stats);
      if e.Stalled? { stats := stats.(clockFailure := true); return false; }
      if e.Silent? { stats := stats.(noCycle := true); return false; }
      if !stats.seen { stats := stats.(seen := true, firstAddress := e.address); }
      var kind, lanes := TypeOf(e), LanesOf(e);
      stats := stats.(lastAddress := e.address, lastType := kind, lastLanes := lanes, lastDataValid := false);
      completed := Dispatch(e, kind, lanes, io);
    }

    method Dispatch(e: BusEvent, kind: CycleType, lanes: Lanes, io: Answers) returns (completed: bool)
      requires e.Cycle? && kind == TypeOf(e) && lanes == LanesOf(e)
      modifies this`stats, ram
      ensures Served(View(), stats, completed) == ServeCycle(old(View()), old(stats), e, io)
    {
      if kind.InterruptAck? {
        stats := stats.(ackFlag := true);
        if io.ack.None? { return false; }
        if e.finish.Broken? { stats := stats.(clockFailure := true); return false; }
        stats := stats.(lastData := if io.ack.value.drive then io.ack.value.vector else 0,
                        lastDataValid := io.ack.value.drive);
      } else if lanes.NoLanes? {
        stats := stats.(invalidLane := true);
        return false;
      } else if kind.MemRead? || kind.IoRead? {
        var driven := io.read;
        if kind.MemRead? { driven := ReadLanes(e.address, lanes); }
        if driven.None? { stats := stats.(unmapped := true); return false; }
        var ok := CompleteRead(e, driven.value);
        if !ok { return false; }
      } else {
        if e.finish.Broken? { stats := stats.(clockFailure := true); return false; }
        stats := stats.(lastData := e.data, lastDataValid := true);
        var ok := io.write;
        if kind.MemWrite? { ok := WriteLanes(e.address, lanes, e.data); }
        if !ok { stats := stats.(unmapped := true); return false; }
      }
      stats := stats.(counters := Count(stats.counters, kind));
      return true;
    }
  }
}
