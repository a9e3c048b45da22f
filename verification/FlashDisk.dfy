/** The write-back block cache over the NOR flash, and the plain array of
    sectors it must be indistinguishable from, even on a failing device. */
module FlashDisk {
  import opened Words

  const PRIMARY: nat := 0x100_0000
  const FIRMWARE: nat := 0x40_0000
  const SECTOR: nat := 512
  const ERASE: nat := 4096
  const SECTORS: nat := 24576
  const BLOCKS: nat := 3072
  const PER_BLOCK: nat := 8

  type Page = s: seq<byte> | |s| == 4096 witness Repeat(0, 4096)

  /** What one erase-and-program operation reports, and what the block holds
      afterwards: on a failure, anything. */
  datatype Outcome = Outcome(reported: bool, contents: Page)

  datatype Result = Ok | Error | NotReady | ParameterError

  predicate RangeValid(sector: nat, count: nat) {
    count != 0 && sector < SECTORS && count <= SECTORS - sector
  }

  function BlockOf(sector: nat): nat { sector * SECTOR / ERASE }

  function Within(sector: nat): nat { sector * SECTOR % ERASE }

  /** Where a block of the volume starts in the 16 MiB device. */
  function BlockBase(block: nat): nat { FIRMWARE + block * ERASE }

  lemma Geometry(sector: nat)
    ensures BlockOf(sector) == sector / PER_BLOCK
    ensures Within(sector) == sector % PER_BLOCK * SECTOR <= ERASE - SECTOR
    ensures FIRMWARE + sector * SECTOR == BlockBase(BlockOf(sector)) + Within(sector)
    ensures sector < SECTORS ==> BlockOf(sector) < BLOCKS && FIRMWARE + sector * SECTOR + SECTOR <= PRIMARY
  {
    var q, r := sector / PER_BLOCK, sector % PER_BLOCK;
    assert sector * SECTOR == q * ERASE + r * SECTOR;
  }

  /** The device contents of a block. */
  function BlockAt(nor: seq<byte>, block: nat): (p: seq<byte>)
    requires |nor| == PRIMARY && block < BLOCKS
    ensures |p| == ERASE
  {
    nor[BlockBase(block)..BlockBase(block) + ERASE]
  }

  /** What a reader of a sector sees: the cached copy of its block, if any. */
  function LogicalSector(nor: seq<byte>, cache: seq<byte>, valid: bool, block: nat, sector: nat): (s: seq<byte>)
    requires |nor| == PRIMARY && |cache| == ERASE && sector < SECTORS
    ensures |s| == SECTOR
  {
    Geometry(sector);
    if valid && block == BlockOf(sector) then cache[Within(sector)..Within(sector) + SECTOR]
    else nor[FIRMWARE + sector * SECTOR..FIRMWARE + sector * SECTOR + SECTOR]
  }

  /** The k-th sector of a transfer buffer. */
  function Slice(buffer: seq<byte>, k: nat): (s: seq<byte>)
    requires (k + 1) * SECTOR <= |buffer|
    ensures |s| == SECTOR
  {
    buffer[k * SECTOR..k * SECTOR + SECTOR]
  }

  lemma SliceOfOverlay(buffer: seq<byte>, i: nat, bytes: seq<byte>, k: nat)
    requires (i + 1) * SECTOR <= |buffer| && |bytes| == SECTOR && (k + 1) * SECTOR <= |buffer|
    ensures Slice(Overlay(buffer, i * SECTOR, bytes), k) == if k == i then bytes else Slice(buffer, k)
  {
  }

  /** The plain array after `applied` sectors of a buffer went to it. */
  function Written(disk: seq<seq<byte>>, sector: nat, buffer: seq<byte>, applied: nat): (d: seq<seq<byte>>)
    requires |disk| == SECTORS && sector + applied <= SECTORS && applied * SECTOR <= |buffer|
    ensures |d| == SECTORS
  {
    seq(SECTORS, s requires 0 <= s < SECTORS =>
      if sector <= s < sector + applied then Slice(buffer, s - sector) else disk[s])
  }

  lemma WrittenNothing(disk: seq<seq<byte>>)
    requires |disk| == SECTORS
    ensures Written(disk, 0, [], 0) == disk
  {
  }

  lemma WrittenNext(disk: seq<seq<byte>>, sector: nat, buffer: seq<byte>, i: nat)
    requires |disk| == SECTORS && sector + i < SECTORS && (i + 1) * SECTOR <= |buffer|
    ensures Written(disk, sector, buffer, i)[sector + i := Slice(buffer, i)] == Written(disk, sector, buffer, i + 1)
  {
  }

  /** Whatever happens to the device copy of the cached block, no reader sees it. */
  lemma CachedBlockHidden(nor: seq<byte>, cache: seq<byte>, block: nat, page: Page, sector: nat)
    requires |nor| == PRIMARY && |cache| == ERASE && block < BLOCKS && sector < SECTORS
    ensures BlockBase(block) + ERASE <= PRIMARY
    ensures LogicalSector(Overlay(nor, BlockBase(block), page), cache, true, block, sector)
            == LogicalSector(nor, cache, true, block, sector)
  {
    Geometry(sector);
    var after := Overlay(nor, BlockBase(block), page);
    var at := FIRMWARE + sector * SECTOR;
    if block != BlockOf(sector) {
      assert at + SECTOR <= BlockBase(block) || BlockBase(block) + ERASE <= at;
      assert after[at..at + SECTOR] == nor[at..at + SECTOR];
    }
  }

  /** A cached block that equals its device copy makes no difference. */
  lemma CleanBlockTransparent(nor: seq<byte>, cache: seq<byte>, block: nat, sector: nat)
    requires |nor| == PRIMARY && |cache| == ERASE && block < BLOCKS && sector < SECTORS
    requires cache == BlockAt(nor, block)
    ensures LogicalSector(nor, cache, true, block, sector) == LogicalSector(nor, cache, false, block, sector)
  {
    Geometry(sector);
    if block == BlockOf(sector) {
      var at := FIRMWARE + sector * SECTOR;
      assert at == BlockBase(block) + Within(sector) && at + SECTOR <= BlockBase(block) + ERASE;
      assert cache[Within(sector)..Within(sector) + SECTOR] == nor[at..at + SECTOR];
    }
  }

  /** Storing one sector into the cached block changes that sector alone. */
  lemma CachedStore(nor: seq<byte>, cache: seq<byte>, target: nat, bytes: seq<byte>, sector: nat)
    requires |nor| == PRIMARY && |cache| == ERASE && |bytes| == SECTOR && target < SECTORS && sector < SECTORS
    ensures Within(target) + SECTOR <= ERASE
    ensures LogicalSector(nor, Overlay(cache, Within(target), bytes), true, BlockOf(target), sector)
            == if sector == target then bytes else LogicalSector(nor, cache, true, BlockOf(target), sector)
  {
    Geometry(target);
    Geometry(sector);
    var after := Overlay(cache, Within(target), bytes);
    if BlockOf(sector) == BlockOf(target) {
      var w := Within(sector);
      if sector == target {
        assert after[w..w + SECTOR] == bytes;
      } else {
        assert w + SECTOR <= Within(target) || Within(target) + SECTOR <= w;
        assert after[w..w + SECTOR] == cache[w..w + SECTOR];
      }
    }
  }

  class Driver {
    const nor: array<byte>
    const cache: array<byte>
    const device: nat -> Outcome
    var cacheBlock: nat
    var cacheValid: bool
    var cacheDirty: bool
    var initialized: bool
    var healthy: bool
    var erases: nat

    ghost predicate Valid()
      reads this, nor, cache
    {
      && nor.Length == PRIMARY && cache.Length == ERASE && nor != cache
      && (cacheValid ==> cacheBlock < BLOCKS)
      && (cacheDirty ==> cacheValid)
      && (cacheValid && !cacheDirty ==> cache[..] == BlockAt(nor[..], cacheBlock))
    }

    /** The disk as its readers see it. */
    ghost function Logical(): (d: seq<seq<byte>>)
      reads this, nor, cache
      requires Valid()
      ensures |d| == SECTORS
    {
      seq(SECTORS, s requires 0 <= s < SECTORS reads this, nor, cache
                     requires nor.Length == PRIMARY && cache.Length == ERASE =>
        LogicalSector(nor[..], cache[..], cacheValid, cacheBlock, s))
    }

    method Flush() returns (ok: bool)
      requires Valid()
      modifies nor, this`cacheDirty, this`healthy, this`erases
      ensures Valid() && Logical() == old(Logical())
      ensures ok <==> !cacheDirty
      ensures healthy == (old(healthy) && ok)
      ensures old(erases) <= erases <= old(erases) + 1
      ensures ok == (|| !old(cacheDirty)
                     || old(BlockAt(nor[..], cacheBlock)) == cache[..]
                     || device(old(erases)) == Outcome(true, cache[..]))
      ensures nor[..FIRMWARE] == old(nor[..FIRMWARE])
    {
      if !cacheDirty { return true; }
      var base := BlockBase(cacheBlock);
      if nor[base..base + ERASE] == cache[..] {
        cacheDirty := false;
        return true;
      }
      var reported := ProgramEraseBlock(base);
      if !reported || nor[base..base + ERASE] != cache[..] {
        healthy := false;
        return false;
      }
      cacheDirty := false;
      return true;
    }

    /** The erase-and-program callback, run with the other core parked. */
    method ProgramEraseBlock(offset: nat) returns (reported: bool)
      requires Valid() && cacheDirty && offset == BlockBase(cacheBlock)
      modifies nor, this`erases
      ensures Valid() && Logical() == old(Logical())
      ensures erases == old(erases) + 1
      ensures reported == device(old(erases)).reported
      ensures nor[..] == Overlay(old(nor[..]), offset, device(old(erases)).contents)
    {
      var outcome := device(erases);
      forall s | 0 <= s < SECTORS
        ensures LogicalSector(Overlay(nor[..], offset, outcome.contents), cache[..], true, cacheBlock, s)
                == LogicalSector(nor[..], cache[..], true, cacheBlock, s)
      {
        CachedBlockHidden(nor[..], cache[..], cacheBlock, outcome.contents, s);
      }
      CopyInto(nor, offset, outcome.contents);
      erases := erases + 1;
      reported := outcome.reported;
    }

    constructor (contents: seq<byte>, behaviour: nat -> Outcome)
      requires |contents| == PRIMARY
      ensures Valid() && fresh(nor) && fresh(cache)
      ensures !cacheValid && healthy && erases == 0 && device == behaviour
      ensures nor[..] == contents
    {
      nor := new byte[PRIMARY](i requires 0 <= i < PRIMARY => contents[i]);
      cache := new byte[ERASE](_ => 0);
      device := behaviour;
      cacheBlock, cacheValid, cacheDirty, initialized, healthy, erases := 0, false, false, false, true, 0;
    }

    method Initialize(drive: nat) returns (ready: bool)
      requires Valid()
      modifies this`initialized
      ensures Valid() && Logical() == old(Logical())
      ensures ready == (drive == 0) && initialized == (old(initialized) || ready)
    {
      if drive != 0 { return false; }
      initialized := true;
      return true;
    }

    method SelectCacheBlock(block: nat) returns (ok: bool)
      requires Valid() && block < BLOCKS
      modifies this, nor, cache
      ensures Valid() && Logical() == old(Logical()) && initialized == old(initialized)
      ensures ok ==> cacheValid && cacheBlock == block && healthy == old(healthy)
      ensures !ok ==> cacheValid && cacheDirty && !healthy && cacheBlock == old(cacheBlock) && cache[..] == old(cache[..])
      ensures old(erases) <= erases <= old(erases) + if old(cacheValid && cacheBlock == block) then 0 else 1
      ensures nor[..FIRMWARE] == old(nor[..FIRMWARE])
    {
      if cacheValid && cacheBlock == block { return true; }
      ok := Flush();
      if !ok { return; }
      LogicalAtRest();
      var base := BlockBase(block);
      CopyInto(cache, 0, nor[base..base + ERASE]);
      cacheBlock := block;
      cacheValid := true;
      LogicalAtRest();
    }

    /** With nothing dirty, the device is the disk. */
    lemma LogicalAtRest()
      requires Valid() && !cacheDirty
      ensures forall s :: 0 <= s < SECTORS ==>
                Logical()[s] == nor[FIRMWARE + s * SECTOR..FIRMWARE + s * SECTOR + SECTOR]
    {
      forall s | 0 <= s < SECTORS
        ensures Logical()[s] == LogicalSector(nor[..], cache[..], false, cacheBlock, s)
      {
        if cacheValid { CleanBlockTransparent(nor[..], cache[..], cacheBlock, s); }
      }
    }

    method ReadSector(sector: nat) returns (bytes: seq<byte>)
      requires Valid() && sector < SECTORS
      ensures bytes == Logical()[sector]
    {
      var byteOffset := sector * SECTOR;
      var block, within := byteOffset / ERASE, byteOffset % ERASE;
      Geometry(sector);
      bytes := if cacheValid && cacheBlock == block then cache[within..within + SECTOR]
               else nor[FIRMWARE + byteOffset..FIRMWARE + byteOffset + SECTOR];
    }

    method DiskRead(drive: nat, buffer: array<byte>, sector: nat, count: nat) returns (r: Result)
      requires Valid() && buffer != nor && buffer != cache && count * SECTOR <= buffer.Length
      modifies buffer
      ensures Valid() && Logical() == old(Logical())
      ensures r == if drive != 0 || !initialized || !RangeValid(sector, count) then ParameterError else Ok
      ensures r.Ok? ==> forall k :: 0 <= k < count ==> Slice(buffer[..], k) == Logical()[sector + k]
      ensures forall i :: (r.Ok? ==> count * SECTOR <= i) && 0 <= i < buffer.Length ==> buffer[i] == old(buffer[i])
    {
      if drive != 0 || !initialized || !RangeValid(sector, count) { return ParameterError; }
      for i := 0 to count
        invariant Valid() && Logical() == old(Logical())
        invariant forall k :: 0 <= k < i ==> Slice(buffer[..], k) == Logical()[sector + k]
        invariant forall k :: i * SECTOR <= k < buffer.Length ==> buffer[k] == old(buffer[k])
      {
        var source := ReadSector(sector + i);
        ghost var before := buffer[..];
        CopyInto(buffer, i * SECTOR, source);
        forall k | 0 <= k < i + 1
          ensures Slice(buffer[..], k) == Logical()[sector + k]
        {
          SliceOfOverlay(before, i, source, k);
        }
      }
      return Ok;
    }

    /** The loop body of `disk_write` for one sector. */
    method WriteSector(target: nat, bytes: seq<byte>) returns (ok: bool)
      requires Valid() && target < SECTORS && |bytes| == SECTOR
      modifies this, nor, cache
      ensures Valid() && initialized == old(initialized)
      ensures Logical() == if ok then old(Logical())[target := bytes] else old(Logical())
      ensures ok ==> cacheValid && cacheDirty && cacheBlock == BlockOf(target) && healthy == old(healthy)
      ensures !ok ==> !healthy
      ensures old(erases) <= erases <= old(erases) + if old(cacheValid && cacheBlock == BlockOf(target)) then 0 else 1
      ensures nor[..FIRMWARE] == old(nor[..FIRMWARE])
    {
      var byteOffset := target * SECTOR;
      var block, within := byteOffset / ERASE, byteOffset % ERASE;
      Geometry(target);
      ok := SelectCacheBlock(block);
      if ok { StoreSector(target, within, bytes); }
    }

    /** `applied` is how many leading sectors reached the disk. */
    method DiskWrite(drive: nat, buffer: seq<byte>, sector: nat, count: nat) returns (r: Result, ghost applied: nat)
      requires Valid() && count * SECTOR <= |buffer|
      modifies this, nor, cache
      ensures Valid() && initialized == old(initialized)
      ensures r.ParameterError? <==> (drive != 0 || !old(initialized) || !RangeValid(sector, count))
      ensures r.ParameterError? ==> applied == 0 && Logical() == old(Logical()) && erases == old(erases)
      ensures !r.ParameterError? ==> r.Ok? || r.Error?
      ensures r.Ok? ==> applied == count && healthy == old(healthy)
      ensures r.Error? ==> applied < count && !healthy
      ensures !r.ParameterError? ==> Logical() == Written(old(Logical()), sector, buffer, applied)
      ensures !r.ParameterError? ==> erases - old(erases) <= BlockOf(sector + count - 1) - BlockOf(sector) + 1
      ensures nor[..FIRMWARE] == old(nor[..FIRMWARE])
    {
      applied := 0;
      if drive != 0 || !initialized || !RangeValid(sector, count) { return ParameterError, 0; }
      ghost var disk := Logical();
      assert Written(disk, sector, buffer, 0) == disk;
      for i := 0 to count
        invariant Valid() && initialized && healthy == old(healthy)
        invariant Logical() == Written(disk, sector, buffer, i)
        invariant i > 0 ==> cacheValid && cacheBlock == BlockOf(sector + i - 1)
        invariant erases - old(erases) <= if i == 0 then 0 else BlockOf(sector + i - 1) - BlockOf(sector) + 1
        invariant nor[..FIRMWARE] == old(nor[..FIRMWARE])
      {
        BlocksAdvance(sector, i);
        BlocksSpan(sector, i, count);
        WrittenNext(disk, sector, buffer, i);
        var ok := WriteSector(sector + i, Slice(buffer, i));
        if !ok { return Error, i; }
      }
      return Ok, count;
    }

    method StoreSector(target: nat, within: nat, bytes: seq<byte>)
      requires Valid() && target < SECTORS && within == Within(target) && |bytes| == SECTOR
      requires cacheValid && cacheBlock == BlockOf(target)
      modifies cache, this`cacheDirty
      ensures Valid() && cacheDirty && Logical() == old(Logical())[target := bytes]
    {
      Geometry(target);
      forall s | 0 <= s < SECTORS
        ensures LogicalSector(nor[..], Overlay(cache[..], within, bytes), true, cacheBlock, s)
                == if s == target then bytes else Logical()[s]
      {
        CachedStore(nor[..], cache[..], target, bytes, s);
      }
      CopyInto(cache, within, bytes);
      cacheDirty := true;
    }

    /** Any sequence of requests, on a device that may fail at any erase: the
        disk is the replay of what each answer admits to, every read delivers the
        sectors of that replay as it stands, and no request reaches below the
        volume. */
    method Perform(requests: seq<Request>) returns (results: seq<Result>, outputs: seq<seq<byte>>, ghost transfers: seq<Transfer>)
      requires Valid() && forall i :: 0 <= i < |requests| ==> Sized(requests[i])
      modifies this, nor, cache
      ensures |results| == |outputs| == |transfers| == |requests|
      ensures forall i :: 0 <= i < |requests| ==> Admitted(requests[i], results[i], transfers[i])
      ensures forall i :: 0 <= i < |requests| ==>
                Delivered(requests[i], results[i], outputs[i], Replay(old(Logical()), transfers[..i]))
      ensures Valid() && Logical() == Replay(old(Logical()), transfers)
      ensures erases <= old(erases) + EraseBudget(requests)
      ensures nor[..FIRMWARE] == old(nor[..FIRMWARE])
    {
      hide Delivered; hide Admitted; hide Replay; hide EraseBound;
      results, outputs, transfers := [], [], [];
      ReplayNothing(Logical());
      for i := 0 to |requests|
        invariant |results| == |outputs| == |transfers| == i
        invariant forall k :: 0 <= k < i ==> Admitted(requests[k], results[k], transfers[k])
        invariant forall k :: 0 <= k < i ==>
                    Delivered(requests[k], results[k], outputs[k], Replay(old(Logical()), transfers[..k]))
        invariant Valid() && Logical() == Replay(old(Logical()), transfers)
        invariant erases <= old(erases) + EraseBudget(requests[..i])
        invariant nor[..FIRMWARE] == old(nor[..FIRMWARE])
      {
        var r, bytes, t := PerformOne(requests[i]);
        ReplayAppend(old(Logical()), transfers, t);
        assert forall k :: 0 <= k <= i ==> (transfers + [t])[..k] == transfers[..k];
        assert transfers[..i] == transfers;
        assert requests[..i + 1][..i] == requests[..i];
        results, outputs, transfers := results + [r], outputs + [bytes], transfers + [t];
      }
      assert requests[..|requests|] == requests;
    }

    method PerformOne(request: Request) returns (r: Result, bytes: seq<byte>, ghost t: Transfer)
      requires Valid() && Sized(request)
      modifies this, nor, cache
      ensures Valid() && Logical() == Written(old(Logical()), t.sector, t.buffer, t.applied)
      ensures Admitted(request, r, t) && Delivered(request, r, bytes, old(Logical()))
      ensures erases <= old(erases) + EraseBound(request)
      ensures nor[..FIRMWARE] == old(nor[..FIRMWARE])
    {
      t, bytes := RawTransfer.Transfer(0, [], 0), [];
      WrittenNothing(Logical());
      match request
      case Read(drive, sector, count) =>
        var buffer := new byte[count * SECTOR];
        r := DiskRead(drive, buffer, sector, count);
        bytes := buffer[..];
      case Write(drive, buffer, sector, count) =>
        ghost var applied;
        r, applied := DiskWrite(drive, buffer, sector, count);
        if !r.ParameterError? { t := RawTransfer.Transfer(sector, buffer, applied); }
      case Control(drive, command) =>
        var value;
        r, value := DiskIoctl(drive, command);
      case Start(drive) =>
        var ready := Initialize(drive);
        r := if ready then Ok else NotReady;
    }

    method DiskIoctl(drive: nat, command: Command) returns (r: Result, value: nat)
      requires Valid()
      modifies nor, this`cacheDirty, this`healthy, this`erases
      ensures Valid() && Logical() == old(Logical())
      ensures r.NotReady? <==> drive != 0 || !initialized
      ensures !r.NotReady? && command.Sync? ==> (r.Ok? || r.Error?) && (r.Ok? <==> !cacheDirty)
      ensures !r.NotReady? && command.Sync? && r.Ok? ==>
                forall s :: 0 <= s < SECTORS ==>
                  nor[FIRMWARE + s * SECTOR..FIRMWARE + s * SECTOR + SECTOR] == Logical()[s]
      ensures !command.Sync? || r.NotReady? ==> nor[..] == old(nor[..]) && cacheDirty == old(cacheDirty)
      ensures !r.NotReady? && !command.Sync? ==> r == if command.Unknown? then ParameterError else Ok
      ensures !r.NotReady? && command.SectorCount? ==> value == |Logical()|
      ensures !r.NotReady? && command.SectorSize? ==> forall s :: 0 <= s < SECTORS ==> |Logical()[s]| == value
      ensures !r.NotReady? && command.BlockSize? ==> value * SECTOR == ERASE
      ensures old(erases) <= erases <= old(erases) + if !r.NotReady? && command.Sync? then 1 else 0
      ensures nor[..FIRMWARE] == old(nor[..FIRMWARE])
    {
      value := 0;
      if drive != 0 || !initialized { return NotReady, 0; }
      match command
      case Sync =>
        var ok := Flush();
        r := if ok then Ok else Error;
        if ok { LogicalAtRest(); }
      case SectorCount => return Ok, SECTORS;
      case SectorSize => return Ok, SECTOR;
      case BlockSize => return Ok, PER_BLOCK;
      case Trim => return Ok, 0;
      case Unknown => return ParameterError, 0;
    }
  }

  datatype Request =
    | Read(drive: nat, sector: nat, count: nat)
    | Write(drive: nat, buffer: seq<byte>, sector: nat, count: nat)
    | Control(drive: nat, command: Command)
    | Start(drive: nat)

  datatype Command = Sync | SectorCount | SectorSize | BlockSize | Trim | Unknown

  lemma BlocksAdvance(sector: nat, i: nat)
    ensures i > 0 ==> BlockOf(sector + i - 1) <= BlockOf(sector + i) <= BlockOf(sector + i - 1) + 1
    ensures BlockOf(sector) <= BlockOf(sector + i)
  {
    Geometry(sector);
    Geometry(sector + i);
    if i > 0 { Geometry(sector + i - 1); }
  }

  lemma BlocksSpan(sector: nat, i: nat, count: nat)
    requires i < count
    ensures BlockOf(sector + i) <= BlockOf(sector + count - 1)
  {
    Geometry(sector + i);
    Geometry(sector + count - 1);
  }

  // ---- whole runs on the plain array ------------------------------------------

  /** The part of a `disk_write` that was applied. */
  datatype RawTransfer = Transfer(sector: nat, buffer: seq<byte>, applied: nat)

  predicate Fits(t: RawTransfer) {
    t.sector + t.applied <= SECTORS && t.applied * SECTOR <= |t.buffer|
  }

  type Transfer = t: RawTransfer | Fits(t) witness RawTransfer.Transfer(0, [], 0)

  /** A write request brings the bytes it asks to be written. */
  predicate Sized(q: Request) { q.Write? ==> q.count * SECTOR <= |q.buffer| }

  /** What the answer to a request says was applied: all of a write that is Ok,
      a proper part of one that fails, nothing of anything else. */
  ghost predicate Admitted(q: Request, r: Result, t: Transfer) {
    if q.Write? && !r.ParameterError?
    then t.sector == q.sector && t.buffer == q.buffer && (if r.Ok? then t.applied == q.count else t.applied < q.count)
    else t.applied == 0
  }

  /** The erases a request may cost: one for each erase block a write touches,
      one for a sync, none for anything else. */
  function EraseBound(q: Request): nat {
    match q
    case Write(_, _, sector, count) =>
      if !RangeValid(sector, count) then 0
      else BlocksSpan(sector, 0, count); BlockOf(sector + count - 1) - BlockOf(sector) + 1
    case Control(_, Sync) => 1
    case _ => 0
  }

  function EraseBudget(requests: seq<Request>): nat {
    if requests == [] then 0
    else EraseBudget(requests[..|requests| - 1]) + EraseBound(requests[|requests| - 1])
  }

  /** A read that is Ok delivers the sectors of the disk as it was then. */
  ghost predicate Delivered(q: Request, r: Result, bytes: seq<byte>, disk: seq<seq<byte>>) {
    q.Read? && r.Ok? ==>
      && q.sector + q.count <= |disk| && |bytes| == q.count * SECTOR
      && forall k :: 0 <= k < q.count ==> Slice(bytes, k) == disk[q.sector + k]
  }

  lemma ReplayNothing(disk: seq<seq<byte>>)
    requires |disk| == SECTORS
    ensures Replay(disk, []) == disk
  {
  }

  predicate Covers(t: Transfer, s: nat) { t.sector <= s < t.sector + t.applied }

  function Replay(disk: seq<seq<byte>>, transfers: seq<Transfer>): (d: seq<seq<byte>>)
    requires |disk| == SECTORS
    ensures |d| == SECTORS
    decreases transfers
  {
    if transfers == [] then disk
    else
      var t := transfers[0];
      Replay(Written(disk, t.sector, t.buffer, t.applied), transfers[1..])
  }

  lemma {:induction false} ReplayAppend(disk: seq<seq<byte>>, transfers: seq<Transfer>, t: Transfer)
    requires |disk| == SECTORS
    ensures Replay(disk, transfers + [t]) == Written(Replay(disk, transfers), t.sector, t.buffer, t.applied)
    decreases transfers
  {
    hide Written;
    if transfers == [] {
      assert transfers + [t] == [t] && [t][1..] == [];
    } else {
      var u := transfers[0];
      assert (transfers + [t])[1..] == transfers[1..] + [t];
      ReplayAppend(Written(disk, u.sector, u.buffer, u.applied), transfers[1..], t);
    }
  }

  lemma {:induction false} UntouchedSector(disk: seq<seq<byte>>, transfers: seq<Transfer>, s: nat)
    requires |disk| == SECTORS && s < SECTORS
    requires forall i :: 0 <= i < |transfers| ==> !Covers(transfers[i], s)
    ensures Replay(disk, transfers)[s] == disk[s]
    decreases transfers
  {
    if transfers != [] {
      var t := transfers[0];
      UntouchedSector(Written(disk, t.sector, t.buffer, t.applied), transfers[1..], s);
    }
  }

  /** A sector holds what the last transfer that covered it put there. */
  lemma {:induction false} LastWriteWins(disk: seq<seq<byte>>, transfers: seq<Transfer>, last: nat, s: nat)
    requires |disk| == SECTORS && s < SECTORS && last < |transfers| && Covers(transfers[last], s)
    requires forall i :: last < i < |transfers| ==> !Covers(transfers[i], s)
    ensures Replay(disk, transfers)[s] == Slice(transfers[last].buffer, s - transfers[last].sector)
    decreases transfers
  {
    var t := transfers[0];
    var next := Written(disk, t.sector, t.buffer, t.applied);
    if last == 0 {
      UntouchedSector(next, transfers[1..], s);
    } else {
      LastWriteWins(next, transfers[1..], last - 1, s);
    }
  }
}
