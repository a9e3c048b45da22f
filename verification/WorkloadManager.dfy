/** Workload manifests, the upload receiver and the lifecycle it guards, with
    the Host's encoder and record builder on the other side. */
module WorkloadManager {
  import opened Words
  import opened Protocol
  import opened Backing
  import opened Crc32
  import opened MemoryService

  const MANIFEST_MAGIC: u32 := 0x5736_3850
  const SPACE: nat := 0x10_0000
  const MANIFEST_SIZE: nat := 40
  const DATA_BYTES: nat := 44

  // ---- manifests ---------------------------------------------------------------------

  datatype Manifest = Manifest(
    magic: u32, version: u16, headerSize: u16, imageSize: u32, imageCrc: u32, loadAddress: u32,
    entrySegment: u16, entryOffset: u16, stackSegment: u16, stackOffset: u16,
    sharedBase: u32, sharedSize: u32, flags: u32)

  predicate SharedFlag(flags: u32) { flags / 4 % 2 == 1 }

  predicate FreeRunningFlag(flags: u32) { flags / 8 % 2 == 1 }

  predicate SteppedFlag(flags: u32) { flags / 16 % 2 == 1 }

  predicate TickFlag(flags: u32) { flags / 32 % 2 == 1 }

  /** No bit outside the six known ones. */
  predicate KnownFlags(flags: u32) { flags < 64 }

  function Linear(segment: u16, offset: u16): nat { segment * 16 + offset }

  predicate Tagged(m: Manifest) {
    m.magic == MANIFEST_MAGIC && m.version == 1 && m.headerSize == MANIFEST_SIZE
  }

  predicate ClockFlagsValid(flags: u32) {
    && KnownFlags(flags)
    && !(FreeRunningFlag(flags) && SteppedFlag(flags))
    && (TickFlag(flags) ==> SteppedFlag(flags))
  }

  /** `manifest_valid` of the firmware, with its 32-bit sums. */
  predicate FirmwareValid(m: Manifest, b: Store) {
    var imageEnd := Wrap32(m.loadAddress + m.imageSize);
    && Tagged(m) && m.imageSize != 0 && b.available
    && m.loadAddress < SPACE && imageEnd >= m.loadAddress && imageEnd <= SPACE
    && RangeValid(b, m.loadAddress, m.imageSize)
    && !(m.loadAddress < MAILBOX_BASE + MAILBOX_SIZE && imageEnd > MAILBOX_BASE)
    && m.loadAddress <= Linear(m.entrySegment, m.entryOffset) < imageEnd
    && (m.stackSegment != 0 || m.stackOffset != 0 ==>
          var stack := Linear(m.stackSegment, m.stackOffset);
          stack < SPACE && stack < MAILBOX_BASE && RangeValid(b, stack, 2))
    && ClockFlagsValid(m.flags)
    && (m.sharedSize == 0 <==> !SharedFlag(m.flags))
    && (m.sharedSize != 0 ==>
          var sharedEnd := Wrap32(m.sharedBase + m.sharedSize);
          sharedEnd >= m.sharedBase && sharedEnd <= SPACE && RangeValid(b, m.sharedBase, m.sharedSize))
  }

  /** `validated` of the Host. */
  predicate HostValid(m: Manifest) {
    && m.imageSize > 0 && m.loadAddress < SPACE && m.loadAddress + m.imageSize <= SPACE
    && Linear(m.entrySegment, m.entryOffset) < SPACE
    && m.loadAddress <= Linear(m.entrySegment, m.entryOffset) < m.loadAddress + m.imageSize
    && Linear(m.stackSegment, m.stackOffset) < SPACE
    && (if m.sharedSize != 0
        then m.sharedBase < SPACE && m.sharedBase + m.sharedSize <= SPACE && SharedFlag(m.flags)
        else m.sharedBase == 0 && !SharedFlag(m.flags))
    && ClockFlagsValid(m.flags)
  }

  lemma NoWrap(a: u32, n: u32)
    requires n != 0 && Wrap32(a + n) >= a && Wrap32(a + n) <= SPACE
    ensures Wrap32(a + n) == a + n
  {
  }

  /** The two validators differ on firmware-acceptable manifests in one field
      only: the firmware ignores the base of an absent shared range. */
  lemma ValidatorsAgree(m: Manifest, b: Store)
    requires FirmwareValid(m, b)
    ensures HostValid(m) <==> (m.sharedSize == 0 ==> m.sharedBase == 0)
    ensures Wrap32(m.loadAddress + m.imageSize) == m.loadAddress + m.imageSize <= SPACE
    ensures m.loadAddress + m.imageSize <= MAILBOX_BASE || MAILBOX_BASE + MAILBOX_SIZE <= m.loadAddress
  {
    NoWrap(m.loadAddress, m.imageSize);
    if m.sharedSize != 0 { NoWrap(m.sharedBase, m.sharedSize); }
  }

  /** And they do differ: sixteen bytes at 0x10000 with a shared base of 4 and
      no shared range. */
  lemma ValidatorsDiffer(b: Store, crc: u32)
    requires b.available && b.base == 0 && |b.bytes| == 0x40000
    ensures exists m :: FirmwareValid(m, b) && m.imageCrc == crc && !HostValid(m)
  {
    var m := Manifest(MANIFEST_MAGIC, 1, 40, 16, crc, 0x1_0000, 0x1000, 0, 0, 0, 4, 0, 0);
    assert FirmwareValid(m, b) && !HostValid(m);
  }

  /** What the firmware asks beyond the Host: that everything is backed, and
      that image and stack keep clear of the mailbox page. */
  predicate Placed(m: Manifest, b: Store) {
    var stack := Linear(m.stackSegment, m.stackOffset);
    && RangeValid(b, m.loadAddress, m.imageSize)
    && (m.loadAddress + m.imageSize <= MAILBOX_BASE || MAILBOX_BASE + MAILBOX_SIZE <= m.loadAddress)
    && (m.stackSegment == 0 == m.stackOffset || (stack < MAILBOX_BASE && RangeValid(b, stack, 2)))
    && (m.sharedSize != 0 ==> RangeValid(b, m.sharedBase, m.sharedSize))
  }

  /** A manifest the Host accepts is refused by the firmware exactly if it is
      not tagged or not placed. */
  lemma HostAcceptedExactly(m: Manifest, b: Store)
    requires HostValid(m)
    ensures FirmwareValid(m, b) <==> Tagged(m) && Placed(m, b)
  {
    Wrap32Small(m.loadAddress + m.imageSize);
    if m.sharedSize != 0 { Wrap32Small(m.sharedBase + m.sharedSize); }
    hide Wrap32;
  }

  /** So an upload can be packed and then refused: any image over the mailbox page. */
  lemma PackedButRefused(b: Store, crc: u32)
    ensures exists m :: HostValid(m) && Tagged(m) && m.imageCrc == crc && !FirmwareValid(m, b)
  {
    var m := Manifest(MANIFEST_MAGIC, 1, 40, 16, crc, MAILBOX_BASE, 0x3F00, 0, 0, 0, 0, 0, 0);
    assert HostValid(m) && !Placed(m, b);
    HostAcceptedExactly(m, b);
  }

  function Encode(m: Manifest): (s: seq<byte>)
    ensures |s| == MANIFEST_SIZE
  {
    Le32(m.magic) + Le16(m.version) + Le16(m.headerSize) + Le32(m.imageSize) + Le32(m.imageCrc) + Le32(m.loadAddress)
    + Le16(m.entrySegment) + Le16(m.entryOffset) + Le16(m.stackSegment) + Le16(m.stackOffset)
    + Le32(m.sharedBase) + Le32(m.sharedSize) + Le32(m.flags)
  }

  /** The packed structure the firmware copies out of the payload. */
  function Decode(s: seq<byte>, at: nat): Manifest
    requires at + MANIFEST_SIZE <= |s|
  {
    Manifest(Load32(s, at), Load16(s, at + 4), Load16(s, at + 6), Load32(s, at + 8), Load32(s, at + 12),
             Load32(s, at + 16), Load16(s, at + 20), Load16(s, at + 22), Load16(s, at + 24), Load16(s, at + 26),
             Load32(s, at + 28), Load32(s, at + 32), Load32(s, at + 36))
  }

  /** What the Host packs is what the firmware sees. */
  lemma DecodeOfEncode(m: Manifest, prefix: seq<byte>)
    ensures Decode(prefix + Encode(m), |prefix|) == m
  {
    var s, at := prefix + Encode(m), |prefix|;
    var e := Encode(m);
    forall i, j | 0 <= i <= j <= MANIFEST_SIZE
      ensures s[at + i..at + j] == e[i..j]
    {
    }
    assert e[0..4] == Le32(m.magic) && e[4..6] == Le16(m.version) && e[6..8] == Le16(m.headerSize);
    assert e[8..12] == Le32(m.imageSize) && e[12..16] == Le32(m.imageCrc) && e[16..20] == Le32(m.loadAddress);
    assert e[20..22] == Le16(m.entrySegment) && e[22..24] == Le16(m.entryOffset);
    assert e[24..26] == Le16(m.stackSegment) && e[26..28] == Le16(m.stackOffset);
    assert e[28..32] == Le32(m.sharedBase) && e[32..36] == Le32(m.sharedSize) && e[36..40] == Le32(m.flags);
    hide Encode;
    LoadFields(s, at, m);
  }

  lemma LoadFields(s: seq<byte>, at: nat, m: Manifest)
    requires at + 40 <= |s|
    requires s[at + 0..at + 4] == Le32(m.magic) && s[at + 4..at + 6] == Le16(m.version) && s[at + 6..at + 8] == Le16(m.headerSize)
    requires s[at + 8..at + 12] == Le32(m.imageSize) && s[at + 12..at + 16] == Le32(m.imageCrc)
    requires s[at + 16..at + 20] == Le32(m.loadAddress)
    requires s[at + 20..at + 22] == Le16(m.entrySegment) && s[at + 22..at + 24] == Le16(m.entryOffset)
    requires s[at + 24..at + 26] == Le16(m.stackSegment) && s[at + 26..at + 28] == Le16(m.stackOffset)
    requires s[at + 28..at + 32] == Le32(m.sharedBase) && s[at + 32..at + 36] == Le32(m.sharedSize)
    requires s[at + 36..at + 40] == Le32(m.flags)
    ensures Decode(s, at) == m
  {
    hide Le16; hide Le32; hide Load16; hide Load32;
    Load32OfLe32(s, at, m.magic);
    Load16OfLe16(s, at + 4, m.version);
    Load16OfLe16(s, at + 6, m.headerSize);
    Load32OfLe32(s, at + 8, m.imageSize);
    Load32OfLe32(s, at + 12, m.imageCrc);
    Load32OfLe32(s, at + 16, m.loadAddress);
    Load16OfLe16(s, at + 20, m.entrySegment);
    Load16OfLe16(s, at + 22, m.entryOffset);
    Load16OfLe16(s, at + 24, m.stackSegment);
    Load16OfLe16(s, at + 26, m.stackOffset);
    Load32OfLe32(s, at + 28, m.sharedBase);
    Load32OfLe32(s, at + 32, m.sharedSize);
    Load32OfLe32(s, at + 36, m.flags);
  }

  // ---- the manager ------------------------------------------------------------------------

  datatype State = Empty | Receiving | Staged | Running | Stopped | Completed | Faulted | TimedOut

  datatype Manager = Manager(
    manifest: Manifest, transferId: u32, workloadId: u32, received: u32, crc: Register, state: State)

  const NO_MANIFEST: Manifest := Manifest(0, 0, 0, 0, 0, 0, 0, 0, 0, 0, 0, 0, 0)

  const INITIAL: Manager := Manager(NO_MANIFEST, 0, 0, 0, ZERO, Empty)

  predicate Busy(m: Manager) { m.state.Running? || m.state.Completed? }

  predicate BeginAllowed(m: Manager, b: Store, manifest: Manifest) {
    FirmwareValid(manifest, b) && !Busy(m)
  }

  function Begin(m: Manager, transferId: u32, manifest: Manifest): Manager {
    Manager(manifest, transferId, m.workloadId, 0, ZERO, Receiving)
  }

  predicate WriteAllowed(m: Manager, b: Store, transferId: u32, offset: u32, data: seq<byte>) {
    && m.state.Receiving? && transferId == m.transferId && offset == m.received
    && data != [] && m.received <= m.manifest.imageSize && |data| <= m.manifest.imageSize - m.received
    && RangeValid(b, Wrap32(m.manifest.loadAddress + offset), |data|)
  }

  function Accept(m: Manager, data: seq<byte>): Manager
    requires m.received + |data| < W32
  {
    m.(crc := ManagerUpdate(m.crc, data), received := m.received + |data|)
  }

  predicate CommitAllowed(m: Manager, transferId: u32, expected: u32) {
    && m.state.Receiving? && transferId == m.transferId && m.received == m.manifest.imageSize
    && expected == m.manifest.imageCrc && ToWord(m.crc) == expected
  }

  function NextId(id: u32): (r: u32)
    ensures r != 0
  {
    if id == 0xffff_ffff then 1 else id + 1
  }

  function Commit(m: Manager, transferId: u32, expected: u32): Manager {
    if !m.state.Receiving? then m
    else if !CommitAllowed(m, transferId, expected) then m.(state := Faulted)
    else m.(workloadId := NextId(m.workloadId), state := Staged)
  }

  predicate IdMatches(m: Manager, id: u32) { m.workloadId != 0 && (id == 0 || id == m.workloadId) }

  predicate RunAllowed(m: Manager, id: u32) { IdMatches(m, id) && (m.state.Staged? || m.state.Stopped?) }

  predicate StopAllowed(m: Manager, id: u32) { IdMatches(m, id) && Busy(m) }

  predicate CompleteAllowed(m: Manager, id: u32) { IdMatches(m, id) && m.state.Running? }

  predicate RestartAllowed(m: Manager, id: u32) {
    IdMatches(m, id) && (m.state.Staged? || m.state.Running? || m.state.Stopped? || m.state.Completed?)
  }

  // ---- upload records ----------------------------------------------------------------------

  datatype Site = Site(manager: Manager, store: Store)

  datatype Outcome = Outcome(site: Site, status: u16)

  function HandleBegin(s: Site, transferId: u32, manifest: Manifest): Outcome {
    if BeginAllowed(s.manager, s.store, manifest)
    then Outcome(s.(manager := Begin(s.manager, transferId, manifest)), OK)
    else Outcome(s, BAD_WORKLOAD)
  }

  function HandleData(s: Site, transferId: u32, offset: u32, data: seq<byte>): Outcome {
    if WriteAllowed(s.manager, s.store, transferId, offset, data)
    then Outcome(Site(Accept(s.manager, data), Put(s.store, Wrap32(s.manager.manifest.loadAddress + offset), data)), OK)
    else Outcome(s, BAD_SEQUENCE)
  }

  function HandleCommit(s: Site, transferId: u32, expected: u32): Outcome {
    Outcome(s.(manager := Commit(s.manager, transferId, expected)),
            if CommitAllowed(s.manager, transferId, expected) then OK
            else if s.manager.state.Receiving? then BAD_CRC else BAD_SEQUENCE)
  }

  /** The BEGIN, DATA and COMMIT branches of the workload dispatcher. */
  function HandleUpload(s: Site, r: Message): Outcome {
    if r.status != OK then Outcome(s, BAD_WORKLOAD)
    else if r.kind == WORKLOAD_BEGIN && |r.payload| == 4 + MANIFEST_SIZE
    then HandleBegin(s, Load32(r.payload, 0), Decode(r.payload, 4))
    else if r.kind == WORKLOAD_DATA && |r.payload| > 8
    then HandleData(s, Load32(r.payload, 0), Load32(r.payload, 4), r.payload[8..])
    else if r.kind == WORKLOAD_COMMIT && |r.payload| == 8
    then HandleCommit(s, Load32(r.payload, 0), Load32(r.payload, 4))
    else Outcome(s, BAD_LENGTH)
  }

  // ---- the Host's upload --------------------------------------------------------------------

  function BeginRecord(manifest: Manifest, transferId: u32, sequence: u32): Message {
    Request(WORKLOAD_BEGIN, sequence, Le32(transferId) + Encode(manifest))
  }

  function DataRecord(transferId: u32, offset: u32, data: seq<byte>, sequence: u32): Message {
    Request(WORKLOAD_DATA, sequence, Le32(transferId) + Le32(offset) + data)
  }

  function CommitRecord(transferId: u32, crc: u32, sequence: u32): Message {
    Request(WORKLOAD_COMMIT, sequence, Le32(transferId) + Le32(crc))
  }

  /** How many DATA records the rest of an image takes. */
  function Pieces(image: seq<byte>, offset: nat): nat
    requires offset <= |image|
    decreases |image| - offset
  {
    if offset == |image| then 0 else 1 + Pieces(image, offset + |ChunkFrom(image, offset, DATA_BYTES)|)
  }

  function DataRecords(transferId: u32, image: seq<byte>, offset: nat, sequence: nat): seq<Message>
    requires offset <= |image| < W32 && sequence + Pieces(image, offset) <= W32
    decreases |image| - offset
  {
    if offset == |image| then []
    else
      [DataRecord(transferId, offset, ChunkFrom(image, offset, DATA_BYTES), sequence)]
      + DataRecords(transferId, image, offset + |ChunkFrom(image, offset, DATA_BYTES)|, sequence + 1)
  }

  /** Sequences are not wrapped by this builder, so all of them must fit. */
  predicate SequencesFit(image: seq<byte>, first: nat) { first + Pieces(image, 0) + 2 <= W32 }

  function UploadRecords(manifest: Manifest, image: seq<byte>, transferId: u32, first: nat): seq<Message>
    requires |image| < W32 && SequencesFit(image, first)
  {
    [BeginRecord(manifest, transferId, first)] + DataRecords(transferId, image, 0, first + 1)
    + [CommitRecord(transferId, manifest.imageCrc, first + 1 + Pieces(image, 0))]
  }

  /** `encode_workload_file`'s checks, made before any record is built. */
  predicate Packable(manifest: Manifest, image: seq<byte>) {
    HostValid(manifest) && |image| == manifest.imageSize && Checksum(image) == manifest.imageCrc
  }

  method BuildUpload(manifest: Manifest, image: seq<byte>, transferId: u32, first: nat) returns (records: Option<seq<Message>>)
    requires |image| < W32 && SequencesFit(image, first)
    ensures records == if Packable(manifest, image) then Some(UploadRecords(manifest, image, transferId, first)) else None
  {
    hide DataRecord; hide BeginRecord; hide CommitRecord; hide Checksum;
    if !Packable(manifest, image) { return None; }
    var list := [BeginRecord(manifest, transferId, first)];
    var sequence := first + 1;
    var offset := 0;
    while offset < |image|
      invariant 0 <= offset <= |image|
      invariant first < sequence && sequence + Pieces(image, offset) == first + 1 + Pieces(image, 0)
      invariant list + DataRecords(transferId, image, offset, sequence)
                == [BeginRecord(manifest, transferId, first)] + DataRecords(transferId, image, 0, first + 1)
    {
      var piece := ChunkFrom(image, offset, DATA_BYTES);
      var record := DataRecord(transferId, offset, piece, sequence);
      ghost var rest := DataRecords(transferId, image, offset + |piece|, sequence + 1);
      assert list + ([record] + rest) == (list + [record]) + rest;
      list := list + [record];
      offset := offset + |piece|;
      sequence := sequence + 1;
    }
    assert DataRecords(transferId, image, offset, sequence) == [];
    assert list == [BeginRecord(manifest, transferId, first)] + DataRecords(transferId, image, 0, first + 1);
    return Some(list + [CommitRecord(transferId, manifest.imageCrc, sequence)]);
  }

  // ---- replaying an upload --------------------------------------------------------------------

  function Replay(s: Site, records: seq<Message>): Site
    decreases records
  {
    if records == [] then s else Replay(HandleUpload(s, records[0]).site, records[1..])
  }

  predicate AllOk(s: Site, records: seq<Message>)
    decreases records
  {
    records == [] ||
    (HandleUpload(s, records[0]).status == OK && AllOk(HandleUpload(s, records[0]).site, records[1..]))
  }

  lemma {:induction false} ReplayAppend(s: Site, first: seq<Message>, second: seq<Message>)
    ensures Replay(s, first + second) == Replay(Replay(s, first), second)
    ensures AllOk(s, first + second) <==> AllOk(s, first) && AllOk(Replay(s, first), second)
    decreases first
  {
    hide HandleUpload;
    if first == [] {
      assert first + second == second;
    } else {
      assert (first + second)[1..] == first[1..] + second;
      ReplayAppend(HandleUpload(s, first[0]).site, first[1..], second);
    }
  }

  lemma ReplayOne(s: Site, r: Message)
    ensures Replay(s, [r]) == HandleUpload(s, r).site && (AllOk(s, [r]) <==> HandleUpload(s, r).status == OK)
  {
    hide HandleUpload;
    assert [r][1..] == [];
  }

  lemma BeginHandled(s: Site, manifest: Manifest, transferId: u32, sequence: u32)
    ensures HandleUpload(s, BeginRecord(manifest, transferId, sequence)) == HandleBegin(s, transferId, manifest)
  {
    hide HandleBegin; hide Decode; hide Encode;
    var p := BeginRecord(manifest, transferId, sequence).payload;
    DecodeOfEncode(manifest, Le32(transferId));
    assert p[0..4] == Le32(transferId);
    Load32OfLe32(p, 0, transferId);
  }

  lemma DataHandled(s: Site, transferId: u32, offset: u32, data: seq<byte>, sequence: u32)
    requires data != []
    ensures HandleUpload(s, DataRecord(transferId, offset, data, sequence)) == HandleData(s, transferId, offset, data)
  {
    hide HandleData;
    var p := DataRecord(transferId, offset, data, sequence).payload;
    assert p[0..4] == Le32(transferId) && p[4..8] == Le32(offset) && p[8..] == data;
    Load32OfLe32(p, 0, transferId);
    Load32OfLe32(p, 4, offset);
  }

  lemma CommitHandled(s: Site, transferId: u32, crc: u32, sequence: u32)
    ensures HandleUpload(s, CommitRecord(transferId, crc, sequence)) == HandleCommit(s, transferId, crc)
  {
    hide HandleCommit;
    var p := CommitRecord(transferId, crc, sequence).payload;
    assert p[0..4] == Le32(transferId) && p[4..8] == Le32(crc);
    Load32OfLe32(p, 0, transferId);
    Load32OfLe32(p, 4, crc);
  }

  /** Where a transfer stands after `offset` bytes of an image. */
  ghost predicate Midway(s: Site, base: Store, transferId: u32, image: seq<byte>, offset: nat) {
    var m := s.manager;
    && m.state.Receiving? && m.transferId == transferId && m.manifest.imageSize == |image|
    && offset <= |image| && m.received == offset
    && RangeValid(base, m.manifest.loadAddress, |image|) && m.manifest.loadAddress + |image| <= SPACE
    && m.crc == Reference(image[..offset])
    && s.store == Put(base, m.manifest.loadAddress, image[..offset])
  }

  /** An accepted DATA record, without the wrapped sum. */
  lemma DataAccepted(s: Site, transferId: u32, offset: u32, data: seq<byte>)
    requires s.manager.state.Receiving? && transferId == s.manager.transferId && offset == s.manager.received
    requires data != [] && offset + |data| <= s.manager.manifest.imageSize
    requires s.manager.manifest.loadAddress + offset < W32
    requires RangeValid(s.store, s.manager.manifest.loadAddress + offset, |data|)
    ensures HandleData(s, transferId, offset, data)
            == Outcome(Site(Accept(s.manager, data), Put(s.store, s.manager.manifest.loadAddress + offset, data)), OK)
  {
    hide ManagerUpdate; hide Wrap32; hide Put;
    Wrap32Small(s.manager.manifest.loadAddress + offset);
  }

  lemma MidwayStep(s: Site, base: Store, transferId: u32, image: seq<byte>, offset: nat)
    requires Midway(s, base, transferId, image, offset) && offset < |image|
    ensures var h := HandleData(s, transferId, offset, ChunkFrom(image, offset, DATA_BYTES));
            && h.status == OK && Midway(h.site, base, transferId, image, offset + |ChunkFrom(image, offset, DATA_BYTES)|)
            && h.site.manager.manifest == s.manager.manifest && h.site.manager.workloadId == s.manager.workloadId
  {
    hide Reference; hide ManagerUpdate; hide HandleData;
    var piece := ChunkFrom(image, offset, DATA_BYTES);
    var load := s.manager.manifest.loadAddress;
    assert image[..offset + |piece|] == image[..offset] + piece;
    PutTwice(base, load, image[..offset], piece);
    ChecksumExtends(image[..offset], piece);
    DataAccepted(s, transferId, offset, piece);
    hide Put;
  }

  lemma {:induction false} DataApplied(s: Site, base: Store, transferId: u32, image: seq<byte>, offset: nat, sequence: nat)
    requires Midway(s, base, transferId, image, offset) && sequence + Pieces(image, offset) <= W32 && |image| < W32
    ensures var records := DataRecords(transferId, image, offset, sequence);
            var t := Replay(s, records);
            && AllOk(s, records) && Midway(t, base, transferId, image, |image|)
            && t.manager.manifest == s.manager.manifest && t.manager.workloadId == s.manager.workloadId
    decreases |image| - offset
  {
    hide HandleUpload; hide HandleData; hide Midway; hide DataRecord;
    assert offset <= |image| by { MidwayBound(s, base, transferId, image, offset); }
    if offset != |image| {
      MidwayStep(s, base, transferId, image, offset);
      DataHandled(s, transferId, offset, ChunkFrom(image, offset, DATA_BYTES), sequence);
      var r := DataRecord(transferId, offset, ChunkFrom(image, offset, DATA_BYTES), sequence);
      var next := offset + |ChunkFrom(image, offset, DATA_BYTES)|;
      DataApplied(HandleUpload(s, r).site, base, transferId, image, next, sequence + 1);
      var rest := DataRecords(transferId, image, next, sequence + 1);
      assert ([r] + rest)[1..] == rest;
    }
  }

  lemma MidwayBound(s: Site, base: Store, transferId: u32, image: seq<byte>, offset: nat)
    requires Midway(s, base, transferId, image, offset)
    ensures offset <= |image|
  {
  }

  /** Replaying the Host's upload of any image the firmware accepts, from any
      state but RUNNING and COMPLETED: every record is accepted, the image is
      staged at its load address, and no other byte has changed. */
  lemma UploadStages(s: Site, manifest: Manifest, image: seq<byte>, transferId: u32, first: nat)
    requires Packable(manifest, image) && FirmwareValid(manifest, s.store) && !Busy(s.manager)
    requires SequencesFit(image, first)
    ensures |image| < W32
    ensures var records := UploadRecords(manifest, image, transferId, first);
            var t := Replay(s, records);
            && AllOk(s, records)
            && t.manager.state.Staged? && t.manager.manifest == manifest
            && t.manager.workloadId == NextId(s.manager.workloadId)
            && RangeValid(s.store, manifest.loadAddress, |image|)
            && t.store == Put(s.store, manifest.loadAddress, image)
  {
    hide HandleUpload; hide Reference; hide DataRecords; hide BeginRecord; hide CommitRecord; hide HandleData;
    var data := DataRecords(transferId, image, 0, first + 1);
    var begin := BeginRecord(manifest, transferId, first);
    var commit := CommitRecord(transferId, manifest.imageCrc, first + 1 + Pieces(image, 0));
    BeginHandled(s, manifest, transferId, first);
    var s1 := HandleUpload(s, begin).site;
    BeginMidway(s, manifest, image, transferId);
    hide FirmwareValid; hide HostValid;
    DataApplied(s1, s.store, transferId, image, 0, first + 1);
    var s2 := Replay(s1, data);
    CommitHandled(s2, transferId, manifest.imageCrc, first + 1 + Pieces(image, 0));
    assert image[..|image|] == image;
    ReplayOne(s, begin);
    ReplayOne(s2, commit);
    ReplayAppend(s, [begin], data);
    ReplayAppend(s, [begin] + data, [commit]);
  }

  lemma BeginMidway(s: Site, manifest: Manifest, image: seq<byte>, transferId: u32)
    requires FirmwareValid(manifest, s.store) && !Busy(s.manager) && |image| == manifest.imageSize
    ensures HandleBegin(s, transferId, manifest).status == OK
    ensures Midway(HandleBegin(s, transferId, manifest).site, s.store, transferId, image, 0)
    ensures RangeValid(s.store, manifest.loadAddress, |image|)
  {
    ValidatorsAgree(manifest, s.store);
    ReferenceIsAbsorb([]);
    hide Reference;
    assert Put(s.store, manifest.loadAddress, []).bytes == s.store.bytes;
    assert image[..0] == [];
  }

  // ---- any sequence of records ------------------------------------------------------------------

  /** The bytes of the transfer in progress: none after an accepted BEGIN, and
      each accepted DATA payload behind the earlier ones. */
  function Gathered(sent: seq<byte>, s: Site, r: Message): seq<byte> {
    if HandleUpload(s, r).status != OK then sent
    else if r.kind == WORKLOAD_BEGIN then []
    else if r.kind == WORKLOAD_DATA && |r.payload| > 8 then sent + r.payload[8..]
    else sent
  }

  /** Bytes with `data` written over them from position `at`, as far as it meets them. */
  function Patched(held: seq<byte>, at: int, data: seq<byte>): (s: seq<byte>)
    ensures |s| == |held|
  {
    seq(|held|, i requires 0 <= i < |held| => if at <= i < at + |data| then data[i - at] else held[i])
  }

  /** While receiving, count and checksum are those of what was sent, and the
      load range holds `held`. */
  ghost predicate UploadInv(s: Site, sent: seq<byte>, held: seq<byte>) {
    var m := s.manager;
    m.state.Receiving? ==>
      && FirmwareValid(m.manifest, s.store) && m.received == |sent| == |held| <= m.manifest.imageSize
      && Read(s.store, m.manifest.loadAddress, |held|) == Some(held)
      && m.crc == Reference(sent)
  }

  lemma ValidSameShape(m: Manifest, b: Store, c: Store)
    requires SameShape(b, c)
    ensures FirmwareValid(m, b) <==> FirmwareValid(m, c)
  {
  }

  lemma BeginInv(s: Site, sent: seq<byte>, held: seq<byte>, transferId: u32, manifest: Manifest)
    requires UploadInv(s, sent, held)
    ensures var h := HandleBegin(s, transferId, manifest);
            if h.status == OK then UploadInv(h.site, [], []) else UploadInv(h.site, sent, held)
  {
    ReferenceIsAbsorb([]);
    hide Reference;
    if BeginAllowed(s.manager, s.store, manifest) {
      assert Read(s.store, manifest.loadAddress, 0).value == [];
    }
  }

  lemma DataInv(s: Site, sent: seq<byte>, held: seq<byte>, transferId: u32, offset: u32, data: seq<byte>)
    requires UploadInv(s, sent, held)
    ensures var h := HandleData(s, transferId, offset, data);
            if h.status == OK then UploadInv(h.site, sent + data, held + data) else UploadInv(h.site, sent, held)
  {
    hide Reference; hide ManagerUpdate; hide Read;
    if WriteAllowed(s.manager, s.store, transferId, offset, data) {
      var load, n := s.manager.manifest.loadAddress, s.manager.received;
      ValidatorsAgree(s.manager.manifest, s.store);
      ValidSameShape(s.manager.manifest, s.store, Put(s.store, load + n, data));
      DataAccepted(s, transferId, offset, data);
      hide HandleData; hide FirmwareValid;
      ReadExtended(s.store, load, n, data);
      ChecksumExtends(sent, data);
      hide Put;
    }
  }

  lemma CommitInv(s: Site, sent: seq<byte>, held: seq<byte>, transferId: u32, expected: u32)
    requires UploadInv(s, sent, held)
    ensures UploadInv(HandleCommit(s, transferId, expected).site, sent, held)
  {
    hide Reference; hide FirmwareValid;
  }

  /** Every record, accepted or not, keeps both accounts of the transfer. */
  lemma HandleUploadInv(s: Site, sent: seq<byte>, held: seq<byte>, r: Message)
    requires UploadInv(s, sent, held)
    ensures UploadInv(HandleUpload(s, r).site, Gathered(sent, s, r), Gathered(held, s, r))
  {
    hide UploadInv; hide HandleBegin; hide HandleData; hide HandleCommit;
    if r.status == OK && r.kind == WORKLOAD_BEGIN && |r.payload| == 4 + MANIFEST_SIZE {
      BeginInv(s, sent, held, Load32(r.payload, 0), Decode(r.payload, 4));
    } else if r.status == OK && r.kind == WORKLOAD_DATA && |r.payload| > 8 {
      DataInv(s, sent, held, Load32(r.payload, 0), Load32(r.payload, 4), r.payload[8..]);
    } else if r.status == OK && r.kind == WORKLOAD_COMMIT && |r.payload| == 8 {
      CommitInv(s, sent, held, Load32(r.payload, 0), Load32(r.payload, 4));
    }
  }

  /** What any range reads after any write. */
  lemma ReadPatched(b: Store, address: nat, data: seq<byte>, from: nat, length: nat)
    requires RangeValid(b, address, |data|) && RangeValid(b, from, length)
    ensures Read(Put(b, address, data), from, length) == Some(Patched(Read(b, from, length).value, address - from, data))
  {
    var x := from - b.base;
    assert Put(b, address, data).bytes[x..x + length] == Patched(b.bytes[x..x + length], address - from, data);
  }

  /** A write to memory while receiving patches what is held, and nothing else. */
  lemma PokeInv(s: Site, sent: seq<byte>, held: seq<byte>, address: nat, data: seq<byte>)
    requires UploadInv(s, sent, held) && RangeValid(s.store, address, |data|)
    ensures UploadInv(s.(store := Put(s.store, address, data)), sent,
                      Patched(held, address - s.manager.manifest.loadAddress, data))
  {
    hide Reference;
    if s.manager.state.Receiving? {
      ValidSameShape(s.manager.manifest, s.store, Put(s.store, address, data));
      hide FirmwareValid;
      ReadPatched(s.store, address, data, s.manager.manifest.loadAddress, s.manager.received);
    }
  }

  /** A commit that is accepted has the declared size and checksum in what was
      sent, and finds what is held, clear of the mailbox page. */
  lemma CommitFinds(s: Site, sent: seq<byte>, held: seq<byte>, r: Message)
    requires UploadInv(s, sent, held) && r.kind == WORKLOAD_COMMIT && HandleUpload(s, r).status == OK
    ensures var t := HandleUpload(s, r).site;
            var m := t.manager.manifest;
            && t.manager.state.Staged? && t.manager.workloadId != 0 && |sent| == m.imageSize
            && Checksum(sent) == m.imageCrc && Read(t.store, m.loadAddress, m.imageSize) == Some(held)
            && (m.loadAddress + m.imageSize <= MAILBOX_BASE || MAILBOX_BASE + MAILBOX_SIZE <= m.loadAddress)
  {
    hide Reference;
    assert s.manager.state.Receiving? && CommitAllowed(s.manager, Load32(r.payload, 0), Load32(r.payload, 4));
    ValidatorsAgree(s.manager.manifest, s.store);
    hide FirmwareValid;
  }

  /** The mailbox reset of a start leaves every accepted image alone. */
  lemma MailboxResetKeepsImage(m: Manifest, b: Store)
    requires FirmwareValid(m, b) && InitMailbox(b).Some?
    ensures Read(InitMailbox(b).value, m.loadAddress, m.imageSize) == Read(b, m.loadAddress, m.imageSize)
  {
    ValidatorsAgree(m, b);
    hide FirmwareValid;
    var cleared := Put(b, MAILBOX_BASE, Repeat(0, MAILBOX_SIZE));
    ReadElsewhere(b, MAILBOX_BASE, Repeat(0, MAILBOX_SIZE), m.loadAddress, m.imageSize);
    ReadElsewhere(cleared, MAILBOX_BASE, Header(OWNER_HOST, STATUS_EMPTY, 0, 0), m.loadAddress, m.imageSize);
  }
}
