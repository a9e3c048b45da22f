/** The shared mailbox, the memory service with its write window, and the Host
    side that hands a request over to the processor. */
module MemoryService {
  import opened Words
  import opened Protocol
  import opened Backing

  const MAILBOX_BASE: nat := 0x3F000
  const MAILBOX_SIZE: nat := 0x1000
  const HEADER_SIZE: nat := 32
  const DATA_SIZE: nat := 4064
  const MAILBOX_MAGIC: u32 := 0x4D36_3852
  const OWNER_HOST: u16 := 1
  const OWNER_PROCESSOR: u16 := 2
  const STATUS_EMPTY: u16 := 0
  const STATUS_REQUEST_READY: u16 := 1
  const MEMORY_READ: byte := 1
  const MEMORY_WRITE: byte := 2
  const CHUNK: nat := 40

  // ---- the mailbox page ------------------------------------------------------------

  /** The packed 32-byte header. */
  function Header(owner: u16, status: u16, generation: u32, requestLength: u16): (s: seq<byte>)
    ensures |s| == HEADER_SIZE
  {
    Le32(MAILBOX_MAGIC) + Le16(1) + Le16(32) + Le16(owner) + Le16(status) + Le32(generation)
    + Le16(requestLength) + Le16(0) + Le32(0) + Le32(0) + Le32(0)
  }

  /** `rp86_shared_mailbox_init`. */
  function InitMailbox(b: Store): Option<Store> {
    if !RangeValid(b, MAILBOX_BASE, MAILBOX_SIZE) then None
    else
      var cleared := Put(b, MAILBOX_BASE, Repeat(0, MAILBOX_SIZE));
      Some(Put(cleared, MAILBOX_BASE, Header(OWNER_HOST, STATUS_EMPTY, 0, 0)))
  }

  /** `rp86_shared_mailbox_host_owned`, on the raw header bytes. */
  predicate OwnedHeader(s: seq<byte>)
    requires |s| == HEADER_SIZE
  {
    Load32(s, 0) == MAILBOX_MAGIC && Load16(s, 4) == 1 && Load16(s, 6) == 32 && Load16(s, 8) == OWNER_HOST
  }

  predicate HostOwned(b: Store) {
    var header := Read(b, MAILBOX_BASE, HEADER_SIZE);
    header.Some? && OwnedHeader(header.value)
  }

  lemma HeaderOwner(owner: u16, status: u16, generation: u32, requestLength: u16)
    ensures OwnedHeader(Header(owner, status, generation, requestLength)) <==> owner == OWNER_HOST
    ensures Header(owner, status, generation, requestLength)[8..10] == Le16(owner)
  {
    var s := Header(owner, status, generation, requestLength);
    assert s[0..4] == Le32(MAILBOX_MAGIC) && s[4..6] == Le16(1) && s[6..8] == Le16(32) && s[8..10] == Le16(owner);
    Load32OfLe32(s, 0, MAILBOX_MAGIC);
    Load16OfLe16(s, 4, 1);
    Load16OfLe16(s, 6, 32);
    Load16OfLe16(s, 8, owner);
  }

  // ---- the service -----------------------------------------------------------------

  datatype Window = Window(base: nat, size: nat)

  predicate Allowed(w: Window, address: nat, length: nat) {
    address >= w.base && address - w.base <= w.size && length <= w.size - (address - w.base)
  }

  datatype Handled = Handled(store: Store, reply: Message)

  function Answer(b: Store, request: Message, status: u16, payload: seq<byte>): Handled {
    Handled(b, Reply(request, MEMORY_RESULT, status, payload))
  }

  /** `rp86_memory_service_handle`. */
  function Handle(b: Store, w: Window, r: Message): Handled {
    if r.version != VERSION || r.kind != MEMORY_REQUEST || r.status != OK || |r.payload| < 12
    then Answer(b, r, BAD_LENGTH, [])
    else
      var echo := r.payload[..12];
      var address, length := Load32(r.payload, 4), Load32(r.payload, 8);
      if !b.available then Answer(b, r, SERVICE_UNAVAILABLE, echo)
      else if length > CHUNK || !RangeValid(b, address, length) then Answer(b, r, BAD_LENGTH, echo)
      else if r.payload[0] == MEMORY_READ && |r.payload| == 12
      then Answer(b, r, OK, echo + Read(b, address, length).value)
      else if r.payload[0] == MEMORY_WRITE && |r.payload| == 12 + length
      then
        if !Allowed(w, address, length) then Answer(b, r, BAD_STATE, echo)
        else Answer(Put(b, address, r.payload[12..]), r, OK, echo)
      else Answer(b, r, BAD_LENGTH, echo)
  }

  /** The window the dispatcher opens before every request. */
  function Policy(b: Store, running: bool): Window {
    if running && HostOwned(b) then Window(MAILBOX_BASE, MAILBOX_SIZE)
    else if running then Window(MAILBOX_BASE, 0)
    else Window(b.base, |b.bytes|)
  }

  function Dispatch(b: Store, running: bool, r: Message): Handled {
    Handle(b, Policy(b, running), r)
  }

  // ---- the Host's records -------------------------------------------------------------

  function WriteRecord(address: u32, data: seq<byte>, sequence: u32): Message
    requires |data| <= CHUNK
  {
    Request(MEMORY_REQUEST, sequence, [MEMORY_WRITE, 0, 0, 0] + Le32(address) + Le32(|data|) + data)
  }

  /** Consecutive chunks of at most 40 bytes. */
  function WriteRecords(address: nat, data: seq<byte>, sequence: u32): seq<Message>
    requires address + |data| <= 0x40000
    decreases |data|
  {
    if data == [] then []
    else
      var chunk := ChunkFrom(data, 0, CHUNK);
      [WriteRecord(address, chunk, sequence)] + WriteRecords(address + |chunk|, data[|chunk|..], NextSequence(sequence))
  }

  lemma ChunkOfTail(data: seq<byte>, offset: nat)
    requires offset < |data|
    ensures ChunkFrom(data[offset..], 0, CHUNK) == ChunkFrom(data, offset, CHUNK)
  {
  }

  lemma WriteRecordsFrom(address: nat, data: seq<byte>, offset: nat, sequence: u32)
    requires address + |data| <= 0x40000 && offset < |data|
    ensures WriteRecords(address + offset, data[offset..], sequence)
            == [WriteRecord(address + offset, ChunkFrom(data, offset, CHUNK), sequence)]
               + WriteRecords(address + offset + |ChunkFrom(data, offset, CHUNK)|, data[offset + |ChunkFrom(data, offset, CHUNK)|..],
                              NextSequence(sequence))
  {
    hide WriteRecord;
    ChunkOfTail(data, offset);
    var tail := data[offset..];
    hide ChunkFrom;
    assert tail[|ChunkFrom(tail, 0, CHUNK)|..] == data[offset + |ChunkFrom(data, offset, CHUNK)|..];
  }

  method MemoryWriteRecords(address: nat, data: seq<byte>, firstSequence: u32) returns (records: Option<seq<Message>>)
    ensures records.None? <==> (data == [] || address + |data| > 0x40000)
    ensures records.Some? ==> records.value == WriteRecords(address, data, firstSequence)
  {
    hide WriteRecord; hide WriteRecords;
    if address >= 0x40000 || data == [] || address + |data| > 0x40000 { return None; }
    var list := [];
    var offset := 0;
    var sequence := firstSequence;
    assert data[0..] == data;
    while offset < |data|
      invariant 0 <= offset <= |data|
      invariant WriteRecords(address, data, firstSequence) == list + WriteRecords(address + offset, data[offset..], sequence)
    {
      WriteRecordsFrom(address, data, offset, sequence);
      var chunk := ChunkFrom(data, offset, CHUNK);
      var record := WriteRecord(address + offset, chunk, sequence);
      ghost var rest := WriteRecords(address + offset + |chunk|, data[offset + |chunk|..], NextSequence(sequence));
      assert list + ([record] + rest) == (list + [record]) + rest;
      list := list + [record];
      offset := offset + |chunk|;
      sequence := NextSequence(sequence);
    }
    NoRecords(address + offset, sequence);
    return Some(list);
  }

  lemma NoRecords(address: nat, sequence: u32)
    requires address <= 0x40000
    ensures WriteRecords(address, [], sequence) == []
  {
  }

  function AfterAll(records: seq<Message>): u32
    requires records != []
  {
    NextSequence(records[|records| - 1].sequence)
  }

  lemma {:induction false} SomeRecords(address: nat, data: seq<byte>, sequence: u32)
    requires address + |data| <= 0x40000 && data != []
    ensures WriteRecords(address, data, sequence) != []
  {
    hide WriteRecord;
  }

  /** Data first, then the header still owned by the Host, then the owner word. */
  function CommitRecords(data: seq<byte>, generation: u32, sequence: u32): seq<Message>
    requires 1 <= |data| <= DATA_SIZE
  {
    var body := WriteRecords(MAILBOX_BASE + HEADER_SIZE, data, sequence);
    SomeRecords(MAILBOX_BASE + HEADER_SIZE, data, sequence);
    var header := Header(OWNER_HOST, STATUS_REQUEST_READY, generation, |data|);
    var s1 := AfterAll(body);
    var s2 := NextSequence(s1);
    body + [WriteRecord(MAILBOX_BASE, header, s1)] + [WriteRecord(MAILBOX_BASE + 8, Le16(OWNER_PROCESSOR), s2)]
  }

  lemma OneRecord(address: nat, data: seq<byte>, sequence: u32)
    requires address + |data| <= 0x40000 && 1 <= |data| <= CHUNK
    ensures WriteRecords(address, data, sequence) == [WriteRecord(address, data, sequence)]
  {
    assert data[..|data|] == data && data[|data|..] == [];
    NoRecords(address + |data|, NextSequence(sequence));
    hide WriteRecord;
  }

  method MailboxCommitRecords(data: seq<byte>, generation: u32, firstSequence: u32) returns (records: Option<seq<Message>>)
    ensures records.None? <==> !(1 <= |data| <= DATA_SIZE)
    ensures records.Some? ==> records.value == CommitRecords(data, generation, firstSequence)
  {
    if data == [] || |data| > DATA_SIZE { return None; }
    hide WriteRecord; hide WriteRecords;
    var header := Header(OWNER_HOST, STATUS_REQUEST_READY, generation, |data|);
    var body := MemoryWriteRecords(MAILBOX_BASE + HEADER_SIZE, data, firstSequence);
    SomeRecords(MAILBOX_BASE + HEADER_SIZE, data, firstSequence);
    var list := body.value;
    var s1 := NextSequence(list[|list| - 1].sequence);
    var middle := MemoryWriteRecords(MAILBOX_BASE, header, s1);
    OneRecord(MAILBOX_BASE, header, s1);
    list := list + middle.value;
    assert list[|list| - 1] == WriteRecord(MAILBOX_BASE, header, s1);
    RecordSequence(MAILBOX_BASE, header, s1);
    var s2 := NextSequence(list[|list| - 1].sequence);
    var last := MemoryWriteRecords(MAILBOX_BASE + 8, Le16(OWNER_PROCESSOR), s2);
    OneRecord(MAILBOX_BASE + 8, Le16(OWNER_PROCESSOR), s2);
    return Some(list + last.value);
  }

  lemma RecordSequence(address: u32, data: seq<byte>, sequence: u32)
    requires |data| <= CHUNK
    ensures WriteRecord(address, data, sequence).sequence == sequence
  {
  }

  // ---- hand-over ------------------------------------------------------------------------

  /** A well-formed write record inside the window is applied and acknowledged. */
  lemma WriteHandled(b: Store, w: Window, address: u32, data: seq<byte>, sequence: u32)
    requires |data| <= CHUNK && RangeValid(b, address, |data|) && Allowed(w, address, |data|)
    ensures var h := Handle(b, w, WriteRecord(address, data, sequence));
            h.store == Put(b, address, data) && h.reply.status == OK && h.reply.sequence == sequence
  {
    var p := WriteRecord(address, data, sequence).payload;
    assert p[4..8] == Le32(address) && p[8..12] == Le32(|data|) && p[12..] == data;
    Load32OfLe32(p, 4, address);
    Load32OfLe32(p, 8, |data|);
  }

  /** A run of records under the RUNNING policy. */
  function DispatchAll(b: Store, records: seq<Message>): Store
    decreases records
  {
    if records == [] then b else DispatchAll(Dispatch(b, true, records[0]).store, records[1..])
  }

  predicate AllAccepted(b: Store, records: seq<Message>)
    decreases records
  {
    records == [] ||
    (Dispatch(b, true, records[0]).reply.status == OK && AllAccepted(Dispatch(b, true, records[0]).store, records[1..]))
  }

  /** The canonical store: the whole mailbox page is inside it. */
  predicate HasMailbox(b: Store) { RangeValid(b, MAILBOX_BASE, MAILBOX_SIZE) && b.base + |b.bytes| <= 0x40000 }

  lemma OwnedApplies(b: Store, address: nat, data: seq<byte>, sequence: u32)
    requires HasMailbox(b) && HostOwned(b) && |data| <= CHUNK
    requires MAILBOX_BASE <= address && address + |data| <= MAILBOX_BASE + MAILBOX_SIZE
    ensures RangeValid(b, address, |data|)
    ensures Dispatch(b, true, WriteRecord(address, data, sequence)).store == Put(b, address, data)
    ensures Dispatch(b, true, WriteRecord(address, data, sequence)).reply.status == OK
    ensures HasMailbox(Put(b, address, data))
  {
    WriteHandled(b, Window(MAILBOX_BASE, MAILBOX_SIZE), address, data, sequence);
  }

  lemma BodyKeepsOwner(b: Store, address: nat, data: seq<byte>)
    requires HasMailbox(b) && HostOwned(b)
    requires MAILBOX_BASE + HEADER_SIZE <= address && address + |data| <= MAILBOX_BASE + MAILBOX_SIZE
    ensures HasMailbox(Put(b, address, data)) && HostOwned(Put(b, address, data))
  {
    ReadElsewhere(b, address, data, MAILBOX_BASE, HEADER_SIZE);
  }

  /** What holds after any number of leading records of a data transfer. */
  ghost predicate BodyPrefix(b: Store, address: nat, data: seq<byte>, records: seq<Message>, k: nat)
    requires k <= |records|
  {
    && RangeValid(b, address, |data|)
    && AllAccepted(b, records[..k]) && HostOwned(DispatchAll(b, records[..k])) && HasMailbox(DispatchAll(b, records[..k]))
    && (k == |records| ==> DispatchAll(b, records[..k]) == Put(b, address, data))
  }

  lemma BodyStep(b: Store, address: nat, data: seq<byte>, n: nat, sequence: u32, rest: seq<Message>, k: nat)
    requires HasMailbox(b) && HostOwned(b) && MAILBOX_BASE + HEADER_SIZE <= address
    requires address + |data| <= MAILBOX_BASE + MAILBOX_SIZE && n <= |data| && n <= CHUNK && 1 <= k <= |rest| + 1
    requires RangeValid(b, address, n) && BodyPrefix(Put(b, address, data[..n]), address + n, data[n..], rest, k - 1)
    ensures BodyPrefix(b, address, data, [WriteRecord(address, data[..n], sequence)] + rest, k)
  {
    hide WriteRecord; hide Dispatch; hide DispatchAll; hide AllAccepted; hide HostOwned;
    var r := WriteRecord(address, data[..n], sequence);
    FirstDispatched(b, r, rest, k);
    OwnedApplies(b, address, data[..n], sequence);
    assert data[..n] + data[n..] == data;
    PutTwice(b, address, data[..n], data[n..]);
    hide Put;
  }

  /** Every prefix of the data records leaves the Host the owner; all of them
      together are one write. */
  lemma {:induction false} BodyApplied(b: Store, address: nat, data: seq<byte>, sequence: u32, k: nat)
    requires HasMailbox(b) && HostOwned(b) && MAILBOX_BASE + HEADER_SIZE <= address
    requires address + |data| <= MAILBOX_BASE + MAILBOX_SIZE
    requires k <= |WriteRecords(address, data, sequence)|
    ensures BodyPrefix(b, address, data, WriteRecords(address, data, sequence), k)
    decreases |data|
  {
    hide WriteRecord; hide Dispatch; hide HostOwned;
    if data == [] || k == 0 {
      assert WriteRecords(address, data, sequence)[..k] == [];
      assert data == [] ==> Put(b, address, data).bytes == b.bytes;
      if data != [] { SomeRecords(address, data, sequence); }
    } else {
      hide BodyPrefix;
      assert data[0..] == data;
      WriteRecordsFrom(address, data, 0, sequence);
      var n := |ChunkFrom(data, 0, CHUNK)|;
      assert ChunkFrom(data, 0, CHUNK) == data[..n];
      BodyKeepsOwner(b, address, data[..n]);
      BodyApplied(Put(b, address, data[..n]), address + n, data[n..], NextSequence(sequence), k - 1);
      BodyStep(b, address, data, n, sequence, WriteRecords(address + n, data[n..], NextSequence(sequence)), k);
    }
  }

  lemma FirstDispatched(b: Store, r: Message, rest: seq<Message>, k: nat)
    requires 1 <= k <= |rest| + 1
    ensures DispatchAll(b, ([r] + rest)[..k]) == DispatchAll(Dispatch(b, true, r).store, rest[..k - 1])
    ensures AllAccepted(b, ([r] + rest)[..k])
            <==> Dispatch(b, true, r).reply.status == OK && AllAccepted(Dispatch(b, true, r).store, rest[..k - 1])
  {
    hide Dispatch;
    assert ([r] + rest)[..k][1..] == rest[..k - 1];
  }

  /** The page as the processor finds it once ownership has moved. */
  function Published(b: Store, data: seq<byte>, generation: u32): Store
    requires HasMailbox(b) && |data| <= DATA_SIZE
  {
    Put(Put(b, MAILBOX_BASE + HEADER_SIZE, data), MAILBOX_BASE,
        Header(OWNER_PROCESSOR, STATUS_REQUEST_READY, generation, |data|))
  }

  lemma OwnerWordOnly(b: Store, status: u16, generation: u32, length: u16)
    requires HasMailbox(b)
    ensures Put(Put(b, MAILBOX_BASE, Header(OWNER_HOST, status, generation, length)), MAILBOX_BASE + 8, Le16(OWNER_PROCESSOR))
            == Put(b, MAILBOX_BASE, Header(OWNER_PROCESSOR, status, generation, length))
  {
    var host, processor := Header(OWNER_HOST, status, generation, length), Header(OWNER_PROCESSOR, status, generation, length);
    assert host[..8] == processor[..8] && host[10..] == processor[10..];
    HeaderOwner(OWNER_PROCESSOR, status, generation, length);
    assert processor[8..10] == Le16(OWNER_PROCESSOR);
    var x := MAILBOX_BASE - b.base;
    var left := Overlay(Overlay(b.bytes, x, host), x + 8, Le16(OWNER_PROCESSOR));
    var right := Overlay(b.bytes, x, processor);
    forall i | 0 <= i < |b.bytes|
      ensures left[i] == right[i]
    {
      if x <= i < x + 8 {
        assert host[i - x] == host[..8][i - x] == processor[..8][i - x];
      } else if x + 8 <= i < x + 10 {
        assert processor[i - x] == processor[8..10][i - x - 8];
      } else if x + 10 <= i < x + 32 {
        assert host[i - x] == host[10..][i - x - 10] == processor[10..][i - x - 10];
      }
    }
    assert left == right;
  }

  /** The two records that follow the data: metadata, then ownership. */
  lemma HandOver(b: Store, length: u16, generation: u32, s1: u32, s2: u32)
    requires HasMailbox(b) && HostOwned(b)
    ensures var d1 := Dispatch(b, true, WriteRecord(MAILBOX_BASE, Header(OWNER_HOST, STATUS_REQUEST_READY, generation, length), s1));
            var d2 := Dispatch(d1.store, true, WriteRecord(MAILBOX_BASE + 8, Le16(OWNER_PROCESSOR), s2));
            && d1.reply.status == d2.reply.status == OK
            && HostOwned(d1.store) && !HostOwned(d2.store)
            && d2.store == Put(b, MAILBOX_BASE, Header(OWNER_PROCESSOR, STATUS_REQUEST_READY, generation, length))
  {
    var header := Header(OWNER_HOST, STATUS_REQUEST_READY, generation, length);
    var final := Header(OWNER_PROCESSOR, STATUS_REQUEST_READY, generation, length);
    OwnedApplies(b, MAILBOX_BASE, header, s1);
    ReadBack(b, MAILBOX_BASE, header);
    HeaderOwner(OWNER_HOST, STATUS_REQUEST_READY, generation, length);
    var b2 := Put(b, MAILBOX_BASE, header);
    OwnedApplies(b2, MAILBOX_BASE + 8, Le16(OWNER_PROCESSOR), s2);
    OwnerWordOnly(b, STATUS_REQUEST_READY, generation, length);
    ReadBack(b, MAILBOX_BASE, final);
    HeaderOwner(OWNER_PROCESSOR, STATUS_REQUEST_READY, generation, length);
    hide Dispatch; hide WriteRecord; hide OwnedHeader; hide Header; hide Put; hide HasMailbox;
  }

  /** While the processor runs and the Host owns the page: every record of a
      commit is accepted, every proper prefix leaves the Host the owner, and the
      whole sequence publishes exactly the request. */
  lemma CommitPublishes(b: Store, data: seq<byte>, generation: u32, sequence: u32, k: nat)
    requires HasMailbox(b) && HostOwned(b) && 1 <= |data| <= DATA_SIZE
    requires k <= |CommitRecords(data, generation, sequence)|
    ensures var records := CommitRecords(data, generation, sequence);
            && AllAccepted(b, records[..k])
            && (k < |records| ==> HostOwned(DispatchAll(b, records[..k])))
            && (k == |records| ==> DispatchAll(b, records[..k]) == Published(b, data, generation)
                                   && !HostOwned(DispatchAll(b, records[..k])))
  {
    hide WriteRecord; hide WriteRecords; hide Dispatch; hide HostOwned; hide Header; hide AllAccepted; hide DispatchAll;
    var at := MAILBOX_BASE + HEADER_SIZE;
    var body := WriteRecords(at, data, sequence);
    var records := CommitRecords(data, generation, sequence);
    SomeRecords(at, data, sequence);
    var s1 := AfterAll(body);
    var r1 := WriteRecord(MAILBOX_BASE, Header(OWNER_HOST, STATUS_REQUEST_READY, generation, |data|), s1);
    var r2 := WriteRecord(MAILBOX_BASE + 8, Le16(OWNER_PROCESSOR), NextSequence(s1));
    assert records == body + [r1] + [r2];
    var n := |body|;
    BodyApplied(b, at, data, sequence, if k < n then k else n);
    if k < n {
      assert records[..k] == body[..k];
    } else {
      assert body[..n] == body;
      HandOver(DispatchAll(b, body), |data|, generation, s1, NextSequence(s1));
      Appended(b, body, r1);
      Appended(b, body + [r1], r2);
      assert k == n ==> records[..k] == body;
      assert k == n + 1 ==> records[..k] == body + [r1];
      assert k == n + 2 ==> records[..k] == (body + [r1]) + [r2];
    }
  }

  lemma {:induction false} Appended(b: Store, records: seq<Message>, r: Message)
    ensures DispatchAll(b, records + [r]) == Dispatch(DispatchAll(b, records), true, r).store
    ensures AllAccepted(b, records + [r])
            <==> AllAccepted(b, records) && Dispatch(DispatchAll(b, records), true, r).reply.status == OK
    decreases records
  {
    hide Dispatch;
    if records == [] {
      assert records + [r] == [r] && [r][1..] == [];
    } else {
      assert (records + [r])[1..] == records[1..] + [r];
      Appended(Dispatch(b, true, records[0]).store, records[1..], r);
    }
  }

  // ---- lock-out ---------------------------------------------------------------------------

  predicate NonEmptyWrite(r: Message) {
    && r.version == VERSION && r.kind == MEMORY_REQUEST && r.status == OK && |r.payload| > 12
    && r.payload[0] == MEMORY_WRITE
  }

  /** While the processor runs and owns the page, no Host record of any shape
      changes a byte, and every non-empty write is refused. */
  lemma LockedOut(b: Store, r: Message)
    requires !HostOwned(b)
    ensures Dispatch(b, true, r).store == b
    ensures NonEmptyWrite(r) ==> Dispatch(b, true, r).reply.status != OK
  {
    if r.version == VERSION && r.kind == MEMORY_REQUEST && r.status == OK && |r.payload| >= 12 {
      var address, length := Load32(r.payload, 4), Load32(r.payload, 8);
      if RangeValid(b, address, length) && length == 0 && |r.payload| == 12 {
        assert Put(b, address, r.payload[12..]).bytes == b.bytes;
      }
    }
  }

  /** And while the Host owns it, a Host record reaches the page only. */
  lemma PageOnly(b: Store, r: Message, x: nat)
    requires HostOwned(b) && x < |b.bytes| && !(MAILBOX_BASE <= b.base + x < MAILBOX_BASE + MAILBOX_SIZE)
    ensures |Dispatch(b, true, r).store.bytes| == |b.bytes| && Dispatch(b, true, r).store.bytes[x] == b.bytes[x]
  {
  }

  datatype Act = HostRecord(record: Message) | ProcessorStore(address: nat, data: seq<byte>)

  function Acted(b: Store, act: Act): Store {
    match act
    case HostRecord(r) => Dispatch(b, true, r).store
    case ProcessorStore(address, data) => Write(b, address, data)
  }

  function ActedAll(b: Store, acts: seq<Act>): Store
    decreases acts
  {
    if acts == [] then b else ActedAll(Acted(b, acts[0]), acts[1..])
  }

  /** The same run without the Host. */
  function Alone(acts: seq<Act>): seq<Act> {
    if acts == [] then []
    else if acts[0].HostRecord? then Alone(acts[1..]) else [acts[0]] + Alone(acts[1..])
  }

  /** The processor has not handed the page back after any of its stores. */
  predicate KeepsOwnership(b: Store, acts: seq<Act>)
    decreases acts
  {
    !HostOwned(b) &&
    (acts == [] ||
     KeepsOwnership(if acts[0].HostRecord? then b else Acted(b, acts[0]), acts[1..]))
  }

  /** Until the processor hands the page back, memory is what the processor
      alone makes of it, whatever the Host sends in between. */
  lemma {:induction false} ProcessorAlone(b: Store, acts: seq<Act>)
    requires KeepsOwnership(b, acts)
    ensures ActedAll(b, acts) == ActedAll(b, Alone(acts))
    decreases acts
  {
    hide Dispatch; hide HostOwned; hide Write;
    if acts != [] {
      if acts[0].HostRecord? {
        LockedOut(b, acts[0].record);
        ProcessorAlone(b, acts[1..]);
      } else {
        assert Alone(acts)[1..] == Alone(acts[1..]);
        ProcessorAlone(Acted(b, acts[0]), acts[1..]);
      }
    }
  }

  // ---- a commit among the processor's own stores ---------------------------------------------

  function Page(b: Store): (s: seq<byte>)
    requires HasMailbox(b)
    ensures |s| == MAILBOX_SIZE
  {
    b.bytes[MAILBOX_BASE - b.base..MAILBOX_BASE - b.base + MAILBOX_SIZE]
  }

  /** The processor leaves the mailbox page alone. */
  predicate OffPage(act: Act) {
    act.ProcessorStore? ==>
      act.address + |act.data| <= MAILBOX_BASE || MAILBOX_BASE + MAILBOX_SIZE <= act.address
  }

  function RecordsOf(acts: seq<Act>): seq<Message> {
    if acts == [] then []
    else if acts[0].HostRecord? then [acts[0].record] + RecordsOf(acts[1..]) else RecordsOf(acts[1..])
  }

  /** Every Host record of a run is answered OK. */
  predicate AllAnswered(b: Store, acts: seq<Act>)
    decreases acts
  {
    acts == [] ||
    ((acts[0].HostRecord? ==> Dispatch(b, true, acts[0].record).reply.status == OK)
     && AllAnswered(Acted(b, acts[0]), acts[1..]))
  }

  lemma OwnedByPage(b: Store, c: Store)
    requires HasMailbox(b) && HasMailbox(c) && Page(b) == Page(c)
    ensures HostOwned(b) == HostOwned(c)
  {
    hide OwnedHeader;
    assert Read(b, MAILBOX_BASE, HEADER_SIZE).value == Page(b)[..HEADER_SIZE];
    assert Read(c, MAILBOX_BASE, HEADER_SIZE).value == Page(c)[..HEADER_SIZE];
  }

  /** `a` with the page of `c`. */
  function WithPage(a: Store, c: Store): (r: Store)
    requires HasMailbox(a) && HasMailbox(c)
    ensures HasMailbox(r) && SameShape(a, r)
  {
    Put(a, MAILBOX_BASE, Page(c))
  }

  lemma PageOfWithPage(a: Store, c: Store)
    requires HasMailbox(a) && HasMailbox(c)
    ensures Page(WithPage(a, c)) == Page(c)
  {
  }

  lemma WriteInPage(a: Store, c: Store, address: nat, data: seq<byte>)
    requires HasMailbox(a) && HasMailbox(c) && SameShape(a, c)
    requires MAILBOX_BASE <= address && address + |data| <= MAILBOX_BASE + MAILBOX_SIZE
    ensures RangeValid(WithPage(a, c), address, |data|) && RangeValid(c, address, |data|)
    ensures HasMailbox(Put(c, address, data)) && Put(WithPage(a, c), address, data) == WithPage(a, Put(c, address, data))
  {
    assert Put(WithPage(a, c), address, data).bytes == WithPage(a, Put(c, address, data)).bytes;
  }

  lemma StoreOffPage(a: Store, c: Store, address: nat, data: seq<byte>)
    requires HasMailbox(a) && HasMailbox(c) && OffPage(ProcessorStore(address, data))
    ensures HasMailbox(Write(a, address, data)) && SameShape(a, Write(a, address, data))
    ensures Write(WithPage(a, c), address, data) == WithPage(Write(a, address, data), c)
  {
    if RangeValid(a, address, |data|) {
      assert Put(WithPage(a, c), address, data).bytes == WithPage(Put(a, address, data), c).bytes;
    }
  }

  /** What a Host record does to the page, and what it is answered, depends on
      the page alone; and it does nothing elsewhere. */
  lemma RecordOnPage(a: Store, c: Store, r: Message)
    requires HasMailbox(a) && HasMailbox(c) && SameShape(a, c)
    ensures var d := Dispatch(c, true, r);
            && HasMailbox(d.store) && SameShape(c, d.store)
            && Dispatch(WithPage(a, c), true, r).store == WithPage(a, d.store)
            && Dispatch(WithPage(a, c), true, r).reply.status == d.reply.status
  {
    hide Load32; hide HostOwned; hide WithPage; hide Page; hide Put; hide Read;
    var b := WithPage(a, c);
    PageOfWithPage(a, c);
    OwnedByPage(b, c);
    if r.version == VERSION && r.kind == MEMORY_REQUEST && r.status == OK && |r.payload| >= 12 {
      var address: nat, length: nat := Load32(r.payload, 4), Load32(r.payload, 8);
      if |r.payload| == 12 + length && Allowed(Policy(c, true), address, length) {
        WriteInPage(a, c, address, r.payload[12..]);
      }
    }
  }

  /** The processor's stores and the Host's records do not meet: memory is what
      the processor alone makes of it, with the page as the records alone make
      it, and every record is answered as it would be without the processor. */
  lemma {:induction false} Interleaves(a: Store, c: Store, acts: seq<Act>)
    requires HasMailbox(a) && HasMailbox(c) && SameShape(a, c) && forall i :: 0 <= i < |acts| ==> OffPage(acts[i])
    ensures var records := RecordsOf(acts);
            && HasMailbox(ActedAll(a, Alone(acts))) && HasMailbox(DispatchAll(c, records))
            && ActedAll(WithPage(a, c), acts) == WithPage(ActedAll(a, Alone(acts)), DispatchAll(c, records))
            && (AllAnswered(WithPage(a, c), acts) <==> AllAccepted(c, records))
    decreases acts
  {
    hide Dispatch; hide HasMailbox; hide WithPage; hide SameShape; hide Write;
    if acts != [] {
      var rest := acts[1..];
      match acts[0] {
        case HostRecord(r) =>
          RecordOnPage(a, c, r);
          ShapeAgain(a, c, Dispatch(c, true, r).store);
          Interleaves(a, Dispatch(c, true, r).store, rest);
          assert ([r] + RecordsOf(rest))[1..] == RecordsOf(rest);
        case ProcessorStore(address, data) =>
          assert OffPage(acts[0]);
          StoreOffPage(a, c, address, data);
          ShapeAgain(Write(a, address, data), a, c);
          Interleaves(Write(a, address, data), c, rest);
          assert ([acts[0]] + Alone(rest))[1..] == Alone(rest);
      }
    }
  }

  lemma ShapeAgain(a: Store, b: Store, c: Store)
    requires (SameShape(a, b) || SameShape(b, a)) && SameShape(b, c)
    ensures SameShape(a, c)
  {
  }

  lemma OwnPage(b: Store)
    requires HasMailbox(b)
    ensures WithPage(b, b) == b
  {
    assert Put(b, MAILBOX_BASE, Page(b)).bytes == b.bytes;
  }

  /** While the processor runs, storing anywhere but the page, and the Host owns
      the page: every record of a commit is accepted, every proper prefix leaves
      the Host the owner, and the whole sequence publishes exactly the request
      and leaves the rest to the processor. */
  lemma CommitAmongStores(b: Store, data: seq<byte>, generation: u32, sequence: u32, acts: seq<Act>)
    requires HasMailbox(b) && HostOwned(b) && 1 <= |data| <= DATA_SIZE
    requires forall i :: 0 <= i < |acts| ==> OffPage(acts[i])
    requires RecordsOf(acts) <= CommitRecords(data, generation, sequence)
    ensures AllAnswered(b, acts)
    ensures RecordsOf(acts) < CommitRecords(data, generation, sequence) ==> HostOwned(ActedAll(b, acts))
    ensures RecordsOf(acts) == CommitRecords(data, generation, sequence) ==>
              && !HostOwned(ActedAll(b, acts))
              && HasMailbox(ActedAll(b, Alone(acts))) && HasMailbox(Published(b, data, generation))
              && ActedAll(b, acts) == WithPage(ActedAll(b, Alone(acts)), Published(b, data, generation))
  {
    hide CommitRecords; hide HostOwned; hide ActedAll; hide DispatchAll; hide AllAnswered; hide AllAccepted; hide HasMailbox; hide WithPage;
    var records := CommitRecords(data, generation, sequence);
    var k := |RecordsOf(acts)|;
    assert records[..k] == RecordsOf(acts);
    CommitPublishes(b, data, generation, sequence, k);
    ShapeItself(b);
    Interleaves(b, b, acts);
    OwnPage(b);
    var a, c := ActedAll(b, Alone(acts)), DispatchAll(b, RecordsOf(acts));
    PageOfWithPage(a, c);
    OwnedByPage(WithPage(a, c), c);
  }

  lemma ShapeItself(b: Store)
    ensures SameShape(b, b)
  {
  }

  // ---- reading memory back ------------------------------------------------------------------

  function ReadRecord(address: u32, length: u32, sequence: u32): Message {
    Request(MEMORY_REQUEST, sequence, [MEMORY_READ, 0, 0, 0] + Le32(address) + Le32(length))
  }

  /** `parse_memory_read`: the echo must match and the data must be complete. */
  function ParseRead(reply: Message, request: Message): Option<seq<byte>> {
    if reply.kind != MEMORY_RESULT || reply.sequence != request.sequence || reply.status != OK
       || |reply.payload| < 12 || |request.payload| < 12 || reply.payload[..12] != request.payload[..12]
       || reply.payload[0] != MEMORY_READ || |reply.payload| - 12 != Load32(reply.payload, 8)
    then None
    else Some(reply.payload[12..])
  }

  lemma ReadHandled(b: Store, w: Window, address: u32, length: nat, sequence: u32)
    requires 1 <= length <= CHUNK && RangeValid(b, address, length)
    ensures var request := ReadRecord(address, length, sequence);
            ParseRead(Handle(b, w, request).reply, request) == Read(b, address, length)
  {
    var request := ReadRecord(address, length, sequence);
    var p := request.payload;
    assert p[4..8] == Le32(address) && p[8..12] == Le32(length) && p[..12] == p;
    Load32OfLe32(p, 4, address);
    Load32OfLe32(p, 8, length);
    var q := Handle(b, w, request).reply.payload;
    assert q[..12] == p && q[12..] == Read(b, address, length).value;
    assert q[8..12] == p[8..12];
    Load32OfLe32(q, 8, length);
  }

  /** The Host's `read_memory` loop over the service: in whatever state the
      dispatcher is, the bytes that come back are the bytes of the range. */
  method ReadMemory(b: Store, running: bool, address: nat, length: nat, firstSequence: u32) returns (content: Option<seq<byte>>)
    requires b.base == 0 && |b.bytes| == 0x40000 && b.available
    ensures content == if length == 0 then Some([]) else Read(b, address, length)
  {
    hide Handle; hide Policy; hide ReadRecord; hide ParseRead; hide Reply;
    var bytes: seq<byte> := [];
    var sequence := firstSequence;
    while |bytes| < length
      invariant |bytes| <= length
      invariant bytes != [] ==> Read(b, address, |bytes|) == Some(bytes)
    {
      var n := if length - |bytes| < CHUNK then length - |bytes| else CHUNK;
      if address + |bytes| + n > 0x40000 { return None; }
      var request := ReadRecord(address + |bytes|, n, sequence);
      var reply := Handle(b, Policy(b, running), request).reply;
      ReadHandled(b, Policy(b, running), address + |bytes|, n, sequence);
      var chunk := ParseRead(reply, request);
      if chunk.None? { return None; }
      ReadConcat(b, address, |bytes|, n);
      assert bytes == [] ==> Read(b, address, 0) == Some([]);
      bytes := bytes + chunk.value;
      sequence := NextSequence(sequence);
    }
    return Some(bytes);
  }

  // ---- the service in place -----------------------------------------------------------------

  class MemoryPort {
    const storage: Storage
    var writeBase: nat
    var writeSize: nat

    constructor (storage: Storage)
      ensures this.storage == storage && writeBase == storage.base && writeSize == storage.bytes.Length
    {
      this.storage := storage;
      writeBase, writeSize := storage.base, storage.bytes.Length;
    }

    method SetWriteWindow(base: nat, size: nat)
      modifies this
      ensures writeBase == base && writeSize == size
    {
      writeBase, writeSize := base, size;
    }

    method MailboxHostOwned() returns (owned: bool)
      ensures owned == HostOwned(storage.View())
    {
      var header := storage.ReadRange(MAILBOX_BASE, HEADER_SIZE);
      if header.None? { return false; }
      return Load32(header.value, 0) == MAILBOX_MAGIC && Load16(header.value, 4) == 1
             && Load16(header.value, 6) == 32 && Load16(header.value, 8) == OWNER_HOST;
    }

    method InitializeMailbox() returns (ok: bool)
      modifies storage.bytes
      ensures ok == InitMailbox(old(storage.View())).Some?
      ensures storage.View() == if ok then InitMailbox(old(storage.View())).value else old(storage.View())
    {
      ok := storage.FillRange(MAILBOX_BASE, 0, MAILBOX_SIZE);
      if !ok { return; }
      ok := storage.WriteRange(MAILBOX_BASE, Header(OWNER_HOST, STATUS_EMPTY, 0, 0));
    }

    method HandleRequest(r: Message) returns (reply: Message)
      modifies storage.bytes
      ensures Handled(storage.View(), reply) == Handle(old(storage.View()), Window(writeBase, writeSize), r)
    {
      if r.version != VERSION || r.kind != MEMORY_REQUEST || r.status != OK || |r.payload| < 12 {
        return Reply(r, MEMORY_RESULT, BAD_LENGTH, []);
      }
      var echo := r.payload[..12];
      if !storage.available { return Reply(r, MEMORY_RESULT, SERVICE_UNAVAILABLE, echo); }
      var address, length := Load32(r.payload, 4), Load32(r.payload, 8);
      if length > CHUNK || !storage.InRange(address, length) { return Reply(r, MEMORY_RESULT, BAD_LENGTH, echo); }
      if r.payload[0] == MEMORY_READ && |r.payload| == 12 {
        var data := storage.ReadRange(address, length);
        return Reply(r, MEMORY_RESULT, OK, echo + data.value);
      }
      if r.payload[0] == MEMORY_WRITE && |r.payload| == 12 + length {
        if !Allowed(Window(writeBase, writeSize), address, length) { return Reply(r, MEMORY_RESULT, BAD_STATE, echo); }
        var ok := storage.WriteRange(address, r.payload[12..]);
        return Reply(r, MEMORY_RESULT, OK, echo);
      }
      return Reply(r, MEMORY_RESULT, BAD_LENGTH, echo);
    }

    method DispatchMemory(running: bool, r: Message) returns (reply: Message)
      modifies this, storage.bytes
      ensures Handled(storage.View(), reply) == Dispatch(old(storage.View()), running, r)
    {
      var owned := MailboxHostOwned();
      if running && owned {
        SetWriteWindow(MAILBOX_BASE, MAILBOX_SIZE);
      } else if running {
        SetWriteWindow(MAILBOX_BASE, 0);
      } else {
        SetWriteWindow(storage.base, storage.bytes.Length);
      }
      reply := HandleRequest(r);
    }
  }
}
