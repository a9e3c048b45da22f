/** The file service on the flash volume: paths, the upload of a file through a
    temporary, reading it back in chunks, and the Host on the other side. */
module FlashService {
  import opened Words
  import opened Protocol
  import opened Crc32
  import opened NativeOutput

  const CHUNK: nat := 40
  const READ_PATH: nat := 44
  const WRITE_PATH: nat := 36
  const OP_LIST: byte := 1
  const OP_DF: byte := 2
  const OP_READ: byte := 3
  const OP_BEGIN: byte := 4
  const OP_DATA: byte := 5
  const OP_COMMIT: byte := 6
  const VOLUME_BYTES: nat := 12 * 1024 * 1024

  type Path = seq<byte>

  const PREFIX: Path := [102, 108, 97, 115, 104, 58]                                    // flash:
  const TEMP: Path := PREFIX + [47, 80, 73, 56, 54, 85, 80, 76, 68, 46, 84, 77, 80]     // flash:/PI86UPLD.TMP
  const SLASH: byte := 47
  const BACKSLASH: byte := 92
  const DOT: byte := 46

  // ---- paths ------------------------------------------------------------------------------

  /** A run of characters between slashes. */
  predicate IsSegment(s: Path, i: nat, j: nat)
    requires i <= j <= |s|
  {
    && (forall k :: i <= k < j ==> s[k] != SLASH)
    && (i == 0 || s[i - 1] == SLASH) && (j == |s| || s[j] == SLASH)
  }

  /** No segment is "." or "..", and nothing is a control character. */
  predicate SegmentsLegal(s: Path) {
    && (forall k :: 0 <= k < |s| ==> s[k] >= 0x20)
    && (forall i, j | 0 <= i <= j <= |s| && IsSegment(s, i, j) :: s[i..j] != [DOT] && s[i..j] != [DOT, DOT])
  }

  predicate LegalPath(s: Path) {
    && |s| >= 6 && s[..6] == PREFIX && (|s| > 6 ==> s[6] == SLASH) && BACKSLASH !in s
    && SegmentsLegal(s[6..]) && s != TEMP
  }

  /** `valid_flash_path`: the copied path is a C string from here on. */
  predicate Accepted(raw: Path, capacity: nat) {
    6 <= |raw| < capacity && (|raw| > 6 ==> raw[6] == SLASH) && LegalPath(CString(raw))
  }

  method SegmentsValid(s: Path) returns (ok: bool)
    ensures ok == SegmentsLegal(s)
  {
    var segment := 0;
    while segment < |s|
      invariant 0 <= segment <= |s|
      invariant segment == 0 || segment == |s| || s[segment] == SLASH
      invariant forall k :: 0 <= k < segment ==> s[k] >= 0x20
      invariant forall i, j | 0 <= i <= j <= |s| && j <= segment && (j < segment || j == |s| || s[j] == SLASH)
                              && segment != 0 && IsSegment(s, i, j) :: s[i..j] != [DOT] && s[i..j] != [DOT, DOT]
      decreases |s| - segment
    {
      var start := segment;
      while start < |s| && s[start] == SLASH
        invariant segment <= start <= |s|
        invariant forall k :: segment <= k < start ==> s[k] == SLASH
        decreases |s| - start
      {
        start := start + 1;
      }
      var end := start;
      while end < |s| && s[end] != SLASH
        invariant start <= end <= |s|
        invariant forall k :: start <= k < end ==> s[k] != SLASH
        decreases |s| - end
      {
        end := end + 1;
      }
      assert IsSegment(s, start, end);
      if s[start..end] == [DOT] || s[start..end] == [DOT, DOT] { return false; }
      for k := start to end
        invariant forall m :: start <= m < k ==> s[m] >= 0x20
      {
        if s[k] < 0x20 { return false; }
      }
      forall i, j | 0 <= i <= j <= |s| && j <= end && (j < end || j == |s| || s[j] == SLASH) && IsSegment(s, i, j)
        ensures s[i..j] != [DOT] && s[i..j] != [DOT, DOT]
      {
        if j > segment {
          if j <= start { assert s[j - 1] == SLASH; } else { assert i == start; }
        } else if segment == 0 {
          assert i == j;
        }
      }
      segment := end;
    }
    return true;
  }

  method ValidFlashPath(raw: Path, capacity: nat) returns (path: Option<Path>)
    ensures path == if Accepted(raw, capacity) then Some(CString(raw)) else None
  {
    if |raw| < 6 || |raw| >= capacity { return None; }
    var text := CString(raw);
    if raw[..6] != PREFIX || (|raw| > 6 && raw[6] != SLASH) {
      if raw[..6] != PREFIX && |text| >= 6 { CStringTaken(raw, 6); }
      return None;
    }
    PrefixKept(raw);
    if BACKSLASH in text { return None; }
    var legal := SegmentsValid(text[6..]);
    if !legal || text == TEMP { return None; }
    return Some(text);
  }

  lemma {:induction false} CStringTaken(raw: Path, n: nat)
    requires n <= |CString(raw)|
    ensures n <= |raw| && CString(raw)[..n] == raw[..n]
    decreases n
  {
    if n != 0 {
      CStringTaken(raw[1..], n - 1);
      assert CString(raw)[..n] == [raw[0]] + CString(raw[1..])[..n - 1];
      assert raw[..n] == [raw[0]] + raw[1..][..n - 1];
    }
  }

  lemma {:induction false} CStringKeeps(raw: Path, n: nat)
    requires n <= |raw| && forall i :: 0 <= i < n ==> raw[i] != 0
    ensures n <= |CString(raw)|
    decreases n
  {
    if n != 0 { CStringKeeps(raw[1..], n - 1); }
  }

  lemma PrefixKept(raw: Path)
    requires |raw| >= 6 && raw[..6] == PREFIX && (|raw| > 6 ==> raw[6] == SLASH)
    ensures |CString(raw)| >= 6 && CString(raw)[..6] == PREFIX
    ensures |CString(raw)| > 6 ==> CString(raw)[6] == SLASH
  {
    forall i | 0 <= i < 6
      ensures raw[i] != 0
    {
      assert raw[i] == PREFIX[i];
    }
    CStringKeeps(raw, 6);
    CStringTaken(raw, 6);
    if |CString(raw)| > 6 {
      CStringTaken(raw, 7);
      assert CString(raw)[6] == CString(raw)[..7][6] == raw[..7][6];
    }
  }

  // ---- the service ---------------------------------------------------------------------------

  /** Files by the name the file system knows them under; `canon` maps a path
      to that name. The rest is the state of one upload. */
  datatype Flash = Flash(
    files: map<Path, seq<byte>>, canon: Path -> Path,
    open: bool, transferId: u32, expectedSize: u32, expectedCrc: u32, received: u32, register: Register, target: Path,
    available: bool)

  /** How the file system answers: a status per call, zero for success, whether
      the temporary can be removed, what is left in it otherwise, and whatever a
      listing or a disk-free record is answered. */
  datatype Device = Device(
    openStatus: u16, writeStatus: u16, syncStatus: u16, unlinkStatus: u16, renameStatus: u16,
    readOpenStatus: u16, readStatus: u16,
    firstFlush: bool, secondFlush: bool, removesTemp: bool, junk: seq<byte>, listStatus: u16, listing: seq<byte>)

  /** Every call succeeds. */
  predicate Reliable(d: Device) {
    && d.openStatus == d.writeStatus == d.syncStatus == d.unlinkStatus == d.renameStatus == OK
    && d.readOpenStatus == d.readStatus == OK
    && d.firstFlush && d.secondFlush && d.removesTemp
  }

  datatype Served = Served(flash: Flash, reply: Message)

  function TempName(f: Flash): Path { f.canon(TEMP) }

  function Answer(f: Flash, r: Message, status: u16, payload: seq<byte>): Served {
    Served(f, Reply(r, FILESYSTEM_RESULT, status, payload))
  }

  function WithoutTemp(f: Flash, d: Device): map<Path, seq<byte>> {
    if d.removesTemp then f.files - {TempName(f)} else f.files[TempName(f) := d.junk]
  }

  function Abort(f: Flash, d: Device): Flash {
    f.(files := WithoutTemp(f, d), open := false, transferId := 0, expectedSize := 0, received := 0, register := ONES)
  }

  /** WRITE_BEGIN once its path is accepted. */
  function WriteBegin(f: Flash, r: Message, d: Device): Served
    requires |r.payload| >= 16
  {
    var a := Abort(f, d);
    if d.openStatus != OK then Answer(a, r, d.openStatus, [])
    else
      var id := Load32(r.payload, 4);
      Answer(a.(files := a.files[TempName(f) := []], open := true, transferId := id,
                expectedSize := Load32(r.payload, 8), expectedCrc := Load32(r.payload, 12),
                target := CString(r.payload[16..])),
             r, OK, [OP_BEGIN, 0, 0, 0] + Le32(id))
  }

  predicate DataExpected(f: Flash, id: u32, offset: u32, length: nat) {
    f.open && id == f.transferId && offset == f.received && Wrap32(offset + length) <= f.expectedSize
  }

  /** What the open temporary holds. */
  function TempContents(f: Flash): seq<byte> {
    if TempName(f) in f.files then f.files[TempName(f)] else []
  }

  function WriteData(f: Flash, r: Message, d: Device): Served
    requires |r.payload| >= 12
  {
    var id, offset, data := Load32(r.payload, 4), Load32(r.payload, 8), r.payload[12..];
    if !DataExpected(f, id, offset, |data|) then Answer(f, r, BAD_STATE, [])
    else if d.writeStatus != OK then Answer(Abort(f, d), r, d.writeStatus, [])
    else
      Answer(Appended(f, data), r, OK, [OP_DATA, 0, 0, 0] + Le32(id) + Le32(Wrap32(f.received + |data|)))
  }

  function Appended(f: Flash, data: seq<byte>): Flash {
    f.(files := f.files[TempName(f) := TempContents(f) + data],
       register := Absorb(f.register, data), received := Wrap32(f.received + |data|))
  }

  predicate CommitExpected(f: Flash, id: u32) { f.open && id == f.transferId && f.received == f.expectedSize }

  predicate CrcMatches(f: Flash) { ToWord(Xor(f.register, ONES)) == f.expectedCrc }

  /** The status of replacing the target by the temporary, and the files then:
      the old target goes first, so a late failure loses it. */
  function Publish(f: Flash, d: Device): (map<Path, seq<byte>>, u16) {
    var temp, name := TempName(f), f.canon(f.target);
    if d.syncStatus != OK then (f.files, d.syncStatus)
    else if !d.firstFlush then (f.files, IO_ERROR)
    else if d.unlinkStatus != OK then (f.files, d.unlinkStatus)
    else
      var cleared := f.files - {name};
      if temp !in cleared then (cleared, NOT_FOUND)
      else if d.renameStatus != OK then (cleared, d.renameStatus)
      else (cleared[name := cleared[temp]] - {temp}, if d.secondFlush then OK else IO_ERROR)
  }

  function WriteCommit(f: Flash, r: Message, d: Device): Served
    requires |r.payload| == 8
  {
    var id := Load32(r.payload, 4);
    if !CommitExpected(f, id) then Answer(f, r, BAD_STATE, [])
    else if !CrcMatches(f) then Answer(Abort(f, d), r, BAD_CRC, [])
    else
      var (files, status) := Publish(f, d);
      var g := f.(files := files, open := false);
      if status != OK then Answer(if d.removesTemp then g.(files := files - {TempName(f)}) else g, r, status, [])
      else Answer(g.(transferId := 0), r, OK,
                  [OP_COMMIT, 0, 0, 0] + Le32(id) + Le32(f.received) + Le32(ToWord(Xor(f.register, ONES))))
  }

  /** READ of a chunk; the file system opens the file fresh every time. */
  function ReadChunk(f: Flash, r: Message, d: Device): Served
    requires |r.payload| >= 8
  {
    var name, offset := f.canon(CString(r.payload[8..])), Load32(r.payload, 4);
    if d.readOpenStatus != OK then Answer(f, r, d.readOpenStatus, [])
    else if name !in f.files then Answer(f, r, NOT_FOUND, [])
    else
      var content := f.files[name];
      if offset > |content| || |content| >= W32 then Answer(f, r, INVALID_PATH, [])
      else if d.readStatus != OK then Answer(f, r, d.readStatus, [])
      else Answer(f, r, OK, ReadPayload(content, offset))
  }

  function ReadPayload(content: seq<byte>, offset: u32): seq<byte>
    requires offset <= |content| < W32
  {
    var data := ChunkFrom(content, offset, CHUNK);
    [OP_READ, if offset + |data| >= |content| then 1 else 0] + Le16(|data|) + Le32(offset) + Le32(|content|) + data
  }

  /** The service leaves any other record alone. */
  predicate Addressed(r: Message) {
    r.version == VERSION && r.kind == FILESYSTEM_REQUEST && r.status == OK && |r.payload| != 0
  }

  /** `rp86_flash_service_handle`; the length of a record is checked against its
      operation before anything else, and a reply that fails is empty. */
  function Handle(f: Flash, r: Message, d: Device): Served
    requires Addressed(r)
  {
    if !f.available then Answer(f, r, SERVICE_UNAVAILABLE, [])
    else if r.payload[0] in {OP_LIST, OP_DF} then Answer(f, r, d.listStatus, d.listing)
    else if r.payload[0] == OP_READ && |r.payload| >= 8 && |r.payload| - 8 == r.payload[1]
    then if Accepted(r.payload[8..], READ_PATH + 1) then ReadChunk(f, r, d) else Answer(f, r, INVALID_PATH, [])
    else if r.payload[0] == OP_BEGIN && |r.payload| >= 16 && |r.payload| - 16 == r.payload[1]
    then if Accepted(r.payload[16..], WRITE_PATH + 1) then WriteBegin(f, r, d) else Answer(f, r, INVALID_PATH, [])
    else if r.payload[0] == OP_DATA && |r.payload| >= 12
            && Load16(r.payload, 2) <= CHUNK && |r.payload| == 12 + Load16(r.payload, 2)
    then WriteData(f, r, d)
    else if r.payload[0] == OP_COMMIT && |r.payload| == 8 then WriteCommit(f, r, d)
    else Answer(f, r, if OP_READ <= r.payload[0] <= OP_COMMIT then BAD_LENGTH else SERVICE_UNAVAILABLE, [])
  }

  // ---- what no record can do ---------------------------------------------------------------------

  /** The register is that of the bytes in the open temporary. */
  ghost predicate Inv(f: Flash) {
    f.open ==>
      && TempName(f) in f.files
      && f.register == Absorb(ONES, f.files[TempName(f)])
      && f.received == Wrap32(|f.files[TempName(f)]|)
  }

  predicate SameExcept(before: map<Path, seq<byte>>, after: map<Path, seq<byte>>, names: set<Path>) {
    before - names == after - names
  }

  lemma BeginKeeps(f: Flash, r: Message, d: Device)
    requires |r.payload| >= 16
    ensures var g := WriteBegin(f, r, d).flash;
            Inv(g) && SameExcept(f.files, g.files, {TempName(f)}) && g.canon == f.canon
  {
    hide CString;
  }

  lemma AppendedKeeps(f: Flash, data: seq<byte>)
    requires f.open && Inv(f)
    ensures Inv(Appended(f, data)) && SameExcept(f.files, Appended(f, data).files, {TempName(f)})
  {
    hide Absorb; hide Wrap32;
    AbsorbSplit(ONES, TempContents(f), data);
    Wrap32Add(|TempContents(f)|, |data|);
  }

  /** After an abort nothing but a new BEGIN is expected. */
  lemma AbortKeeps(f: Flash, d: Device)
    ensures Inv(Abort(f, d)) && SameExcept(f.files, Abort(f, d).files, {TempName(f)})
    ensures forall id: u32, offset: u32, length: nat :: !DataExpected(Abort(f, d), id, offset, length)
    ensures forall id: u32 :: !CommitExpected(Abort(f, d), id)
    ensures d.removesTemp ==> TempName(f) !in Abort(f, d).files
  {
  }

  lemma DataKeeps(f: Flash, r: Message, d: Device)
    requires |r.payload| >= 12 && Inv(f)
    ensures var g := WriteData(f, r, d).flash;
            Inv(g) && SameExcept(f.files, g.files, {TempName(f)}) && g.canon == f.canon
  {
    AbortKeeps(f, d);
    if f.open { AppendedKeeps(f, r.payload[12..]); }
    hide Inv; hide Absorb; hide Wrap32; hide Load32; hide Le32; hide WithoutTemp;
  }

  /** What replacing the target does to the files. */
  lemma PublishFrame(f: Flash, d: Device)
    requires TempName(f) in f.files
    ensures var (files, status) := Publish(f, d);
            var temp, name := TempName(f), f.canon(f.target);
            && SameExcept(f.files, files, {temp, name}) && SameExcept(f.files, files - {temp}, {temp, name})
            && (status == OK ==> name != temp && files == (f.files - {temp})[name := f.files[temp]])
  {
  }

  lemma Checked(f: Flash)
    requires f.open && Inv(f) && CrcMatches(f)
    ensures TempName(f) in f.files && Checksum(f.files[TempName(f)]) == f.expectedCrc
    ensures f.received == Wrap32(|f.files[TempName(f)]|)
  {
    Complement(f.register);
    ReferenceIsAbsorb(f.files[TempName(f)]);
    hide Absorb; hide Reference; hide Xor; hide ToWord; hide Wrap32;
  }

  /** A commit that publishes anything has checked it: what appears under the
      target's name has the declared checksum and, below 2^32, the declared
      length; and nothing but the target and the temporary changes. */
  lemma CommitKeeps(f: Flash, r: Message, d: Device)
    requires |r.payload| == 8 && Inv(f)
    ensures var s := WriteCommit(f, r, d);
            var g, name := s.flash, f.canon(f.target);
            && Inv(g) && g.canon == f.canon
            && (if CommitExpected(f, Load32(r.payload, 4)) && CrcMatches(f)
                then SameExcept(f.files, g.files, {TempName(f), name})
                else SameExcept(f.files, g.files, {TempName(f)}))
            && (s.reply.status == OK ==>
                  && CommitExpected(f, Load32(r.payload, 4)) && name != TempName(f) && TempName(f) in f.files
                  && g.files == (f.files - {TempName(f)})[name := f.files[TempName(f)]]
                  && Checksum(g.files[name]) == f.expectedCrc && Wrap32(|g.files[name]|) == f.expectedSize)
  {
    hide CrcMatches; hide Load32; hide Le32; hide Publish; hide Checksum; hide Wrap32;
    AbortKeeps(f, d);
    if f.open && CrcMatches(f) {
      Checked(f);
      PublishFrame(f, d);
      hide SameExcept;
    }
  }

  /** Whatever records arrive and however the device fails: only the temporary
      changes, until a commit has passed its checksum, and then only the target. */
  lemma OnlyCheckedCommits(f: Flash, r: Message, d: Device)
    requires Inv(f) && Addressed(r)
    ensures var g := Handle(f, r, d).flash;
            && Inv(g) && g.canon == f.canon
            && (SameExcept(f.files, g.files, {TempName(f)})
                || (f.open && CrcMatches(f) && f.received == f.expectedSize
                    && SameExcept(f.files, g.files, {TempName(f), f.canon(f.target)})))
  {
    hide Accepted; hide Inv; hide CrcMatches; hide WriteBegin; hide WriteData; hide WriteCommit; hide Load32; hide Load16;
    if |r.payload| >= 16 { BeginKeeps(f, r, d); }
    if |r.payload| >= 12 { DataKeeps(f, r, d); }
    if |r.payload| == 8 { CommitKeeps(f, r, d); }
  }

  // ---- whole sessions ----------------------------------------------------------------------------

  /** A record and how the file system answers while it is served. */
  datatype Turn = Turn(record: Message, device: Device)

  function After(f: Flash, turns: seq<Turn>): Flash
    requires forall i :: 0 <= i < |turns| ==> Addressed(turns[i].record)
  {
    if turns == [] then f
    else Handle(After(f, turns[..|turns| - 1]), turns[|turns| - 1].record, turns[|turns| - 1].device).flash
  }

  function Lookup(files: map<Path, seq<byte>>, name: Path): Option<seq<byte>> {
    if name in files then Some(files[name]) else None
  }

  /** The record is the commit of a whole transfer whose checksum matches, onto `name`. */
  predicate CheckedCommit(f: Flash, r: Message, name: Path)
    requires Addressed(r)
  {
    r.payload[0] == OP_COMMIT && f.open && f.received == f.expectedSize && CrcMatches(f) && f.canon(f.target) == name
  }

  /** What a checked commit may leave under its name: nothing, or the bytes that
      were transferred, with the declared checksum and length. */
  predicate Verified(f: Flash, content: Option<seq<byte>>) {
    content.Some? ==> Checksum(content.value) == f.expectedCrc && Wrap32(|content.value|) == f.expectedSize
  }

  lemma SameElsewhere(before: map<Path, seq<byte>>, after: map<Path, seq<byte>>, names: set<Path>, name: Path)
    requires SameExcept(before, after, names) && name !in names
    ensures Lookup(after, name) == Lookup(before, name)
  {
    assert (name in before) == (name in before - names) && (name in after) == (name in after - names);
    if name in before { assert before[name] == (before - names)[name] == (after - names)[name]; }
  }

  /** What replacing the target leaves under its name. */
  lemma PublishContents(f: Flash, d: Device)
    requires TempName(f) in f.files && f.canon(f.target) != TempName(f)
    ensures var name := f.canon(f.target);
            var content := Lookup(Publish(f, d).0, name);
            content == Lookup(f.files, name) || content.None? || content == Some(f.files[TempName(f)])
  {
  }

  /** One record, whatever fails: a file other than the temporary keeps its
      contents, or a checked commit onto it has removed or replaced it. */
  lemma StepContents(f: Flash, r: Message, d: Device, name: Path)
    requires Inv(f) && Addressed(r) && name != TempName(f)
    ensures var content := Lookup(Handle(f, r, d).flash.files, name);
            || content == Lookup(f.files, name)
            || (CheckedCommit(f, r, name) && Verified(f, content))
  {
    hide Accepted; hide Inv; hide CrcMatches; hide WriteBegin; hide WriteData; hide WriteCommit; hide Load32; hide Load16;
    hide Checksum; hide Wrap32; hide SameExcept; hide Lookup;
    if |r.payload| >= 16 {
      BeginKeeps(f, r, d);
      SameElsewhere(f.files, WriteBegin(f, r, d).flash.files, {TempName(f)}, name);
    }
    if |r.payload| >= 12 {
      DataKeeps(f, r, d);
      SameElsewhere(f.files, WriteData(f, r, d).flash.files, {TempName(f)}, name);
    }
    if |r.payload| == 8 { CommitContents(f, r, d, name); }
  }

  lemma CommitContents(f: Flash, r: Message, d: Device, name: Path)
    requires Inv(f) && |r.payload| == 8 && name != TempName(f)
    ensures var content := Lookup(WriteCommit(f, r, d).flash.files, name);
            || content == Lookup(f.files, name)
            || (f.open && f.received == f.expectedSize && CrcMatches(f) && f.canon(f.target) == name && Verified(f, content))
  {
    hide Inv; hide CrcMatches; hide Load32; hide Le32; hide Publish; hide Checksum; hide Wrap32; hide SameExcept;
    CommitKeeps(f, r, d);
    var files := WriteCommit(f, r, d).flash.files;
    if CommitExpected(f, Load32(r.payload, 4)) && CrcMatches(f) {
      if f.canon(f.target) == name {
        Checked(f);
        PublishContents(f, d);
      } else {
        SameElsewhere(f.files, files, {TempName(f), f.canon(f.target)}, name);
      }
    } else {
      SameElsewhere(f.files, files, {TempName(f)}, name);
    }
  }

  lemma {:induction false} SessionInv(f: Flash, turns: seq<Turn>)
    requires Inv(f) && forall i :: 0 <= i < |turns| ==> Addressed(turns[i].record)
    ensures Inv(After(f, turns)) && After(f, turns).canon == f.canon
  {
    hide Inv; hide Handle; hide SameExcept; hide CrcMatches;
    if turns != [] {
      var rest, last := turns[..|turns| - 1], turns[|turns| - 1];
      SessionInv(f, rest);
      OnlyCheckedCommits(After(f, rest), last.record, last.device);
    }
  }

  /** Over any session, with failures anywhere: every file but the temporary is
      as it was, or some commit in between passed its checks and accounts for
      what is there now. */
  lemma {:induction false} EveryFileAccounted(f: Flash, turns: seq<Turn>, name: Path)
    requires Inv(f) && forall i :: 0 <= i < |turns| ==> Addressed(turns[i].record)
    requires name != TempName(f)
    ensures var content := Lookup(After(f, turns).files, name);
            || content == Lookup(f.files, name)
            || exists i :: 0 <= i < |turns| && CheckedCommit(After(f, turns[..i]), turns[i].record, name)
                           && Verified(After(f, turns[..i]), content)
  {
    hide Inv; hide Handle; hide Lookup; hide CheckedCommit; hide Verified;
    if turns != [] {
      var rest, last := turns[..|turns| - 1], turns[|turns| - 1];
      EveryFileAccounted(f, rest, name);
      SessionInv(f, rest);
      StepContents(After(f, rest), last.record, last.device, name);
      forall i | 0 <= i < |rest|
        ensures rest[..i] == turns[..i]
      {
      }
      if Lookup(After(f, turns).files, name) != Lookup(After(f, rest).files, name) {
        assert CheckedCommit(After(f, turns[..|rest|]), turns[|rest|].record, name);
      }
    }
  }

  // ---- putting a file -------------------------------------------------------------------------------

  function BeginRecord(path: Path, data: seq<byte>, id: u32, sequence: u32): Message
    requires |path| < 256 && |data| < W32
  {
    Request(FILESYSTEM_REQUEST, sequence,
            [OP_BEGIN, |path|, 0, 0] + Le32(id) + Le32(|data|) + Le32(Checksum(data)) + path)
  }

  function DataRecord(data: seq<byte>, id: u32, offset: u32, sequence: u32): Message
    requires |data| <= CHUNK
  {
    Request(FILESYSTEM_REQUEST, sequence, [OP_DATA, 0] + Le16(|data|) + Le32(id) + Le32(offset) + data)
  }

  function CommitRecord(id: u32, sequence: u32): Message {
    Request(FILESYSTEM_REQUEST, sequence, [OP_COMMIT, 0, 0, 0] + Le32(id))
  }

  function Following(sequence: u32): u32 { Wrap32(sequence + 1) }

  /** The DATA records from an offset on, and the COMMIT behind them. */
  function TailRecords(data: seq<byte>, id: u32, offset: nat, sequence: u32): seq<Message>
    requires offset <= |data| < W32
    decreases |data| - offset
  {
    if offset == |data| then [CommitRecord(id, Following(sequence))]
    else
      [DataRecord(ChunkFrom(data, offset, CHUNK), id, offset, Following(sequence))]
      + TailRecords(data, id, offset + |ChunkFrom(data, offset, CHUNK)|, Following(sequence))
  }

  function PutRecords(path: Path, data: seq<byte>, id: u32, sequence: u32): seq<Message>
    requires |path| <= WRITE_PATH && |data| < W32
  {
    [BeginRecord(path, data, id, sequence)] + TailRecords(data, id, 0, sequence)
  }

  /** The Host's own test of a path, before any record is built. */
  predicate HostPath(path: Path, maximum: nat) {
    6 <= |path| <= maximum && path[..6] == PREFIX && (|path| > 6 ==> path[6] == SLASH)
  }

  /** `write_records`. */
  method WriteRecords(path: Path, data: seq<byte>, id: u32, firstSequence: u32) returns (records: Option<seq<Message>>)
    requires |data| < W32
    ensures records == if HostPath(path, WRITE_PATH) then Some(PutRecords(path, data, id, firstSequence)) else None
  {
    hide BeginRecord; hide DataRecord; hide CommitRecord; hide Following;
    if !HostPath(path, WRITE_PATH) { return None; }
    var list := [BeginRecord(path, data, id, firstSequence)];
    var sequence, offset := firstSequence, 0;
    while offset < |data|
      invariant 0 <= offset <= |data|
      invariant list + TailRecords(data, id, offset, sequence) == PutRecords(path, data, id, firstSequence)
    {
      var piece := ChunkFrom(data, offset, CHUNK);
      sequence := Following(sequence);
      var record := DataRecord(piece, id, offset, sequence);
      ghost var rest := TailRecords(data, id, offset + |piece|, sequence);
      assert list + ([record] + rest) == (list + [record]) + rest;
      list := list + [record];
      offset := offset + |piece|;
    }
    return Some(list + [CommitRecord(id, Following(sequence))]);
  }

  // ---- replaying a put ---------------------------------------------------------------------------------

  predicate AllAddressed(records: seq<Message>) { forall i :: 0 <= i < |records| ==> Addressed(records[i]) }

  function Replay(f: Flash, records: seq<Message>, d: Device): Flash
    requires AllAddressed(records)
    decreases records
  {
    if records == [] then f else Replay(Handle(f, records[0], d).flash, records[1..], d)
  }

  /** The status of the reply to the last record. */
  function LastStatus(f: Flash, records: seq<Message>, d: Device): u16
    requires AllAddressed(records)
    decreases records
  {
    if records == [] then OK
    else
      var s := Handle(f, records[0], d);
      if |records| == 1 then s.reply.status else LastStatus(s.flash, records[1..], d)
  }

  /** Where a put stands after `offset` bytes. */
  ghost predicate Midway(f: Flash, base: map<Path, seq<byte>>, target: Path, data: seq<byte>, id: u32, offset: nat) {
    && f.available && f.open && f.transferId == id && f.target == target && offset <= |data| < W32
    && f.expectedSize == |data| && f.expectedCrc == Checksum(data)
    && f.received == offset && f.register == Absorb(ONES, data[..offset])
    && f.files == base[TempName(f) := data[..offset]]
  }

  lemma BeginFields(path: Path, data: seq<byte>, id: u32, sequence: u32)
    requires |path| < 256 && |data| < W32
    ensures var r := BeginRecord(path, data, id, sequence);
            && Addressed(r) && |r.payload| == 16 + |path| && r.payload[16..] == path
            && r.payload[0] == OP_BEGIN && r.payload[1] == |path|
            && Load32(r.payload, 4) == id && Load32(r.payload, 8) == |data| && Load32(r.payload, 12) == Checksum(data)
  {
    hide Checksum; hide Le32; hide Load32;
    var p := BeginRecord(path, data, id, sequence).payload;
    assert p[4..8] == Le32(id) && p[8..12] == Le32(|data|) && p[12..16] == Le32(Checksum(data)) && p[16..] == path;
    Load32OfLe32(p, 4, id);
    Load32OfLe32(p, 8, |data|);
    Load32OfLe32(p, 12, Checksum(data));
  }

  lemma BeginServed(f: Flash, r: Message, d: Device)
    requires Addressed(r) && |r.payload| >= 16 && r.payload[0] == OP_BEGIN && |r.payload| - 16 == r.payload[1]
    requires f.available && Accepted(r.payload[16..], WRITE_PATH + 1)
    ensures Handle(f, r, d) == WriteBegin(f, r, d)
  {
    hide Accepted; hide WriteBegin; hide ReadChunk; hide WriteData; hide WriteCommit; hide Answer; hide Load16;
  }

  lemma BeginHandled(f: Flash, path: Path, data: seq<byte>, id: u32, sequence: u32, d: Device)
    requires f.available && Accepted(path, WRITE_PATH + 1) && |path| <= WRITE_PATH && |data| < W32 && Reliable(d)
    ensures var s := Handle(f, BeginRecord(path, data, id, sequence), d);
            s.reply.status == OK && Midway(s.flash, f.files, CString(path), data, id, 0) && s.flash.canon == f.canon
  {
    hide Checksum; hide CString; hide Accepted; hide Handle; hide Load32; hide BeginRecord; hide Le32; hide Addressed;
    AcceptedLonger(path);
    BeginFields(path, data, id, sequence);
    BeginServed(f, BeginRecord(path, data, id, sequence), d);
    assert data[..0] == [];
    assert (f.files - {TempName(f)})[TempName(f) := []] == f.files[TempName(f) := []];
  }

  lemma DataServed(f: Flash, data: seq<byte>, id: u32, offset: u32, sequence: u32, d: Device)
    requires f.available && |data| <= CHUNK
    ensures Addressed(DataRecord(data, id, offset, sequence))
    ensures var s := Handle(f, DataRecord(data, id, offset, sequence), d);
            if !DataExpected(f, id, offset, |data|) then s.flash == f && s.reply.status == BAD_STATE && s.reply.payload == []
            else if d.writeStatus != OK then s.flash == Abort(f, d) && s.reply.status == d.writeStatus
            else s.flash == Appended(f, data) && s.reply.status == OK
  {
    var r := DataRecord(data, id, offset, sequence);
    var p := r.payload;
    assert p[2..4] == Le16(|data|) && p[4..8] == Le32(id) && p[8..12] == Le32(offset) && p[12..] == data;
    Load16OfLe16(p, 2, |data|);
    Load32OfLe32(p, 4, id);
    Load32OfLe32(p, 8, offset);
    hide Load32; hide Load16; hide Le32; hide Le16; hide Appended; hide Wrap32; hide DataExpected; hide Abort;
  }

  lemma DataHandled(f: Flash, data: seq<byte>, id: u32, offset: u32, sequence: u32, d: Device)
    requires f.available && 1 <= |data| <= CHUNK && DataExpected(f, id, offset, |data|) && Reliable(d)
    ensures var s := Handle(f, DataRecord(data, id, offset, sequence), d);
            s.reply.status == OK && s.flash == Appended(f, data)
  {
    hide Handle; hide DataExpected; hide Appended;
    DataServed(f, data, id, offset, sequence, d);
  }

  /** After any session, with failures anywhere: a DATA record is taken exactly if
      a transfer is open, it is of that transfer, it begins where the temporary
      ends and it stays within the declared size. Taken, it extends the temporary;
      otherwise it is answered BAD_STATE and changes nothing. */
  lemma DataInSequence(f: Flash, turns: seq<Turn>, data: seq<byte>, id: u32, offset: u32, sequence: u32, d: Device)
    requires Inv(f) && forall i :: 0 <= i < |turns| ==> Addressed(turns[i].record)
    requires After(f, turns).available && |data| <= 40
    ensures Addressed(DataRecord(data, id, offset, sequence))
    ensures var g := After(f, turns);
            var s, held := Handle(g, DataRecord(data, id, offset, sequence), d), Lookup(g.files, g.canon(TEMP));
            if g.open && held.Some? && id == g.transferId && offset == |held.value| % 0x1_0000_0000
               && (offset + |data|) % 0x1_0000_0000 <= g.expectedSize
            then
              if d.writeStatus == OK
              then s.reply.status == OK && s.flash.files == g.files[g.canon(TEMP) := held.value + data] && s.flash.open
              else s.reply.status == d.writeStatus && !s.flash.open
            else s.reply.status == BAD_STATE && s.reply.payload == [] && s.flash == g
  {
    hide Handle; hide After; hide Absorb;
    SessionInv(f, turns);
    DataServed(After(f, turns), data, id, offset, sequence, d);
  }

  lemma PutAgain(files: map<Path, seq<byte>>, name: Path, first: seq<byte>, second: seq<byte>)
    ensures files[name := first][name := second] == files[name := second]
  {
  }

  lemma MidwayStep(f: Flash, base: map<Path, seq<byte>>, target: Path, data: seq<byte>, id: u32, offset: nat)
    requires Midway(f, base, target, data, id, offset) && offset < |data|
    ensures DataExpected(f, id, offset, |ChunkFrom(data, offset, CHUNK)|)
    ensures Midway(Appended(f, ChunkFrom(data, offset, CHUNK)), base, target, data, id, offset + |ChunkFrom(data, offset, CHUNK)|)
  {
    hide Wrap32; hide Absorb; hide Checksum;
    var piece := ChunkFrom(data, offset, CHUNK);
    Wrap32Small(offset + |piece|);
    AbsorbSplit(ONES, data[..offset], piece);
    assert data[..offset] + piece == data[..offset + |piece|];
    assert TempContents(f) == data[..offset];
    PutAgain(base, TempName(f), data[..offset], data[..offset + |piece|]);
  }

  lemma {:induction false} TailApplied(f: Flash, base: map<Path, seq<byte>>, target: Path, data: seq<byte>, id: u32,
                                       offset: nat, sequence: u32, d: Device)
    requires Midway(f, base, target, data, id, offset) && Reliable(d) && offset <= |data| < W32
    ensures AllAddressed(TailRecords(data, id, offset, sequence))
    ensures var g := Replay(f, TailRecords(data, id, offset, sequence), d);
            var temp, name := TempName(f), f.canon(target);
            g.canon == f.canon && !g.open && g.available
            && g.files == (if name != temp then (base - {temp})[name := data] else base - {temp})
            && LastStatus(f, TailRecords(data, id, offset, sequence), d) == if name != temp then OK else NOT_FOUND
    ensures TailRecords(data, id, offset, sequence) != []
    decreases |data| - offset
  {
    hide Midway; hide Handle; hide DataRecord; hide CommitRecord; hide Appended;
    if offset == |data| {
      CommitHandled(f, base, target, data, id, Following(sequence), d);
      var r := CommitRecord(id, Following(sequence));
      CommitAddressed(id, Following(sequence));
      assert [r][1..] == [];
    } else {
      var piece := ChunkFrom(data, offset, CHUNK);
      MidwayAvailable(f, base, target, data, id, offset);
      MidwayStep(f, base, target, data, id, offset);
      DataHandled(f, piece, id, offset, Following(sequence), d);
      DataAddressed(piece, id, offset, Following(sequence));
      AppendedFrame(f, piece);
      TailApplied(Appended(f, piece), base, target, data, id, offset + |piece|, Following(sequence), d);
      var r := DataRecord(piece, id, offset, Following(sequence));
      var rest := TailRecords(data, id, offset + |piece|, Following(sequence));
      assert ([r] + rest)[1..] == rest;
    }
  }

  lemma MidwayAvailable(f: Flash, base: map<Path, seq<byte>>, target: Path, data: seq<byte>, id: u32, offset: nat)
    requires Midway(f, base, target, data, id, offset)
    ensures f.available
  {
  }

  lemma AppendedFrame(f: Flash, data: seq<byte>)
    ensures Appended(f, data).canon == f.canon && Appended(f, data).available == f.available
  {
  }

  lemma DataAddressed(data: seq<byte>, id: u32, offset: u32, sequence: u32)
    requires |data| <= CHUNK
    ensures Addressed(DataRecord(data, id, offset, sequence))
  {
  }

  lemma CommitAddressed(id: u32, sequence: u32)
    ensures Addressed(CommitRecord(id, sequence))
  {
  }

  lemma CommitHandled(f: Flash, base: map<Path, seq<byte>>, target: Path, data: seq<byte>, id: u32, sequence: u32, d: Device)
    requires Midway(f, base, target, data, id, |data|) && Reliable(d)
    ensures Addressed(CommitRecord(id, sequence))
    ensures var s := Handle(f, CommitRecord(id, sequence), d);
            var temp, name := TempName(f), f.canon(target);
            && s.flash.canon == f.canon && !s.flash.open && s.flash.available
            && s.reply.status == (if name != temp then OK else NOT_FOUND)
            && s.flash.files == if name != temp then (base - {temp})[name := data] else base - {temp}
  {
    hide CrcMatches; hide Load32; hide Le32; hide Absorb; hide Checksum; hide Publish; hide Xor; hide ToWord; hide Accepted;
    var p := CommitRecord(id, sequence).payload;
    assert p[4..8] == Le32(id);
    Load32OfLe32(p, 4, id);
    assert data[..|data|] == data;
    MatchingCrc(f, data);
    PublishWhole(f, base, data, d);
  }

  lemma MatchingCrc(f: Flash, data: seq<byte>)
    requires f.register == Absorb(ONES, data) && f.expectedCrc == Checksum(data)
    ensures CrcMatches(f)
  {
    Complement(f.register);
    ReferenceIsAbsorb(data);
    hide Absorb; hide Reference; hide Xor; hide ToWord;
  }

  lemma PublishWhole(f: Flash, base: map<Path, seq<byte>>, data: seq<byte>, d: Device)
    requires f.files == base[TempName(f) := data] && Reliable(d)
    ensures var (files, status) := Publish(f, d);
            var temp, name := TempName(f), f.canon(f.target);
            if name != temp then status == OK && files == (base - {temp})[name := data]
            else status == NOT_FOUND && files == base - {temp} && files - {temp} == files
  {
  }

  /** Putting any file under any path the service accepts, on a volume whose
      calls succeed: exactly if the path does not name the temporary, the target
      holds the data; and in no case does any other file change. */
  lemma PutStores(f: Flash, path: Path, data: seq<byte>, id: u32, sequence: u32, d: Device)
    requires f.available && Accepted(path, WRITE_PATH + 1) && |data| <= VOLUME_BYTES && Reliable(d)
    ensures AllAddressed(PutRecords(path, data, id, sequence))
    ensures var g := Replay(f, PutRecords(path, data, id, sequence), d);
            var temp, name := f.canon(TEMP), f.canon(CString(path));
            && g.canon == f.canon && g.available
            && (name != temp ==> g.files == (f.files - {temp})[name := data])
            && (name == temp ==> g.files == f.files - {temp})
            && (name in g.files && g.files[name] == data <==> name != temp)
            && LastStatus(f, PutRecords(path, data, id, sequence), d) == if name != temp then OK else NOT_FOUND
  {
    AcceptedLonger(path);
    hide Handle; hide BeginRecord; hide Accepted; hide Midway; hide CString; hide TailRecords;
    var r := BeginRecord(path, data, id, sequence);
    BeginHandled(f, path, data, id, sequence, d);
    BeginAddressed(path, data, id, sequence);
    var g := Handle(f, r, d).flash;
    TailApplied(g, f.files, CString(path), data, id, 0, sequence, d);
    var tail := TailRecords(data, id, 0, sequence);
    assert ([r] + tail)[1..] == tail;
  }

  /** A canonical form that forgets the case of letters, as the volume does. */
  function UpperCase(p: Path): Path {
    seq(|p|, i requires 0 <= i < |p| => if 97 <= p[i] <= 122 then p[i] - 32 else p[i])
  }

  const LOWER_NAME: Path := [47, 112, 105, 56, 54, 117, 112, 108, 100, 46, 116, 109, 112]         // /pi86upld.tmp
  const ALIAS: Path := PREFIX + LOWER_NAME

  lemma {:induction false} CStringWhole(s: Path)
    requires forall i :: 0 <= i < |s| ==> s[i] != 0
    ensures CString(s) == s
  {
    if s != [] { CStringWhole(s[1..]); }
  }

  lemma AliasSegments()
    ensures SegmentsLegal(LOWER_NAME)
  {
    var s := LOWER_NAME;
    forall i, j | 0 <= i <= j <= |s| && IsSegment(s, i, j)
      ensures s[i..j] != [DOT] && s[i..j] != [DOT, DOT]
    {
      if i != j { assert s[i..j][0] == s[i]; }
    }
  }

  lemma AliasUpper()
    ensures UpperCase(ALIAS) == UpperCase(TEMP)
  {
    assert |ALIAS| == |TEMP| == 19;
  }

  lemma AliasAccepted()
    ensures Accepted(ALIAS, WRITE_PATH + 1) && CString(ALIAS) == ALIAS && ALIAS != TEMP
  {
    hide SegmentsLegal; hide CString;
    CStringWhole(ALIAS);
    AliasSegments();
    assert ALIAS[6..] == LOWER_NAME && ALIAS[..6] == PREFIX;
    assert ALIAS[7] != TEMP[7];
  }

  /** The exception is real: an accepted path that is not the temporary's, on a
      volume that ignores case. The data are gone and the commit says NOT_FOUND. */
  lemma AliasedPutLost(f: Flash, data: seq<byte>, id: u32, sequence: u32, d: Device)
    requires f.available && f.canon == UpperCase && |data| <= VOLUME_BYTES && Reliable(d)
    ensures Accepted(ALIAS, WRITE_PATH + 1) && ALIAS != TEMP && AllAddressed(PutRecords(ALIAS, data, id, sequence))
    ensures LastStatus(f, PutRecords(ALIAS, data, id, sequence), d) == NOT_FOUND
    ensures f.canon(ALIAS) !in Replay(f, PutRecords(ALIAS, data, id, sequence), d).files
  {
    hide Accepted; hide CString; hide PutRecords; hide Replay; hide LastStatus; hide UpperCase;
    AliasAccepted();
    AliasUpper();
    PutStores(f, ALIAS, data, id, sequence, d);
  }

  lemma BeginAddressed(path: Path, data: seq<byte>, id: u32, sequence: u32)
    requires |path| < 256 && |data| < W32
    ensures Addressed(BeginRecord(path, data, id, sequence))
  {
  }

  // ---- reading it back -----------------------------------------------------------------------------------

  function ReadRecord(path: Path, offset: u32, sequence: u32): Message
    requires |path| <= READ_PATH
  {
    Request(FILESYSTEM_REQUEST, sequence, [OP_READ, |path|, 0, 0] + Le32(offset) + path)
  }

  datatype Chunk = Chunk(offset: u32, total: u32, data: seq<byte>, eof: bool)

  /** `validate_reply` and `parse_read`. */
  function ParseRead(reply: Message, request: Message): Option<Chunk> {
    var p := reply.payload;
    if reply.kind != FILESYSTEM_RESULT || reply.sequence != request.sequence || reply.status != OK
       || p == [] || request.payload == [] || p[0] != request.payload[0] || |p| < 12 || Load16(p, 2) > |p| - 12
    then None
    else Some(Chunk(Load32(p, 4), Load32(p, 8), p[12..12 + Load16(p, 2)], p[1] % 2 == 1))
  }

  /** The volume is mounted, and files open and read without an error. */
  predicate Readable(f: Flash, d: Device) { f.available && d.readOpenStatus == d.readStatus == OK }

  lemma ReadHandled(f: Flash, path: Path, offset: u32, sequence: u32, d: Device)
    requires |path| <= READ_PATH
    ensures Addressed(ReadRecord(path, offset, sequence))
    ensures var request := ReadRecord(path, offset, sequence);
            var name := f.canon(CString(path));
            ParseRead(Handle(f, request, d).reply, request)
            == if Readable(f, d) && Accepted(path, READ_PATH + 1) && name in f.files && offset <= |f.files[name]| < W32
               then
                 var data := ChunkFrom(f.files[name], offset, CHUNK);
                 Some(Chunk(offset, |f.files[name]|, data, offset + |data| >= |f.files[name]|))
               else None
  {
    hide Accepted; hide CString; hide Load32; hide Load16; hide Le32; hide Le16; hide ReadPayload; hide ChunkFrom;
    var request := ReadRecord(path, offset, sequence);
    var p := request.payload;
    assert p[4..8] == Le32(offset) && p[8..] == path;
    Load32OfLe32(p, 4, offset);
    var name := f.canon(CString(path));
    if Readable(f, d) && Accepted(path, READ_PATH + 1) && name in f.files && offset <= |f.files[name]| < W32 {
      ReadReply(request, f.files[name], offset);
    }
  }

  lemma ReadReply(request: Message, content: seq<byte>, offset: u32)
    requires offset <= |content| < W32 && request.payload != [] && request.payload[0] == OP_READ
    ensures var data := ChunkFrom(content, offset, CHUNK);
            ParseRead(Reply(request, FILESYSTEM_RESULT, OK, ReadPayload(content, offset)), request)
            == Some(Chunk(offset, |content|, data, offset + |data| >= |content|))
  {
    hide Load32; hide Load16; hide Le32; hide Le16; hide ChunkFrom;
    var data := ChunkFrom(content, offset, CHUNK);
    var p := ReadPayload(content, offset);
    assert p[2..4] == Le16(|data|) && p[4..8] == Le32(offset) && p[8..12] == Le32(|content|) && p[12..12 + |data|] == data;
    Load16OfLe16(p, 2, |data|);
    Load32OfLe32(p, 4, offset);
    Load32OfLe32(p, 8, |content|);
  }

  /** `read_file`: terminates, and returns the whole file or nothing. */
  method ReadFile(f: Flash, path: Path, firstSequence: u32, d: Device) returns (content: Option<seq<byte>>)
    requires forall name :: name in f.files ==> |f.files[name]| <= VOLUME_BYTES
    ensures content == if Readable(f, d) && Accepted(path, READ_PATH + 1) && f.canon(CString(path)) in f.files
                       then Some(f.files[f.canon(CString(path))]) else None
  {
    hide Handle; hide Accepted; hide CString; hide ParseRead; hide ReadRecord;
    if !HostPath(path, READ_PATH) {
      RefusedByHost(path);
      return None;
    }
    var bytes: seq<byte>, total: Option<u32> := [], None;
    var sequence := firstSequence;
    ghost var name := f.canon(CString(path));
    ghost var size := if name in f.files then |f.files[name]| else 0;
    while true
      invariant |bytes| <= size
      invariant name in f.files ==> bytes == f.files[name][..|bytes|]
      invariant total == None || (name in f.files && total == Some(size))
      decreases size - |bytes|
    {
      ReadHandled(f, path, |bytes|, sequence, d);
      var request := ReadRecord(path, |bytes|, sequence);
      var chunk := ParseRead(Handle(f, request, d).reply, request);
      if chunk.None? || chunk.value.offset != |bytes| { return None; }
      if total.None? {
        total := Some(chunk.value.total);
      } else if chunk.value.total != total.value {
        return None;
      }
      ghost var before := bytes;
      bytes := bytes + chunk.value.data;
      assert bytes == f.files[name][..|bytes|];
      if chunk.value.eof {
        if total.value != |bytes| { return None; }
        assert f.files[name][..size] == f.files[name];
        return Some(bytes);
      }
      if chunk.value.data == [] { return None; }
      sequence := NextSequence(sequence);
    }
  }

  lemma RefusedByHost(path: Path)
    requires !HostPath(path, READ_PATH)
    ensures !Accepted(path, READ_PATH + 1)
  {
    if Accepted(path, READ_PATH + 1) { CStringTaken(path, 6); }
  }

  /** Put then read is the identity: for every data the volume can hold and every
      accepted path that does not name the temporary. */
  method PutThenRead(f: Flash, path: Path, data: seq<byte>, id: u32, sequence: u32, d: Device) returns (content: Option<seq<byte>>)
    requires f.available && Accepted(path, WRITE_PATH + 1) && |data| <= VOLUME_BYTES && Reliable(d)
    requires f.canon(CString(path)) != f.canon(TEMP)
    requires forall name :: name in f.files ==> |f.files[name]| <= VOLUME_BYTES
    ensures content == Some(data)
  {
    PutStores(f, path, data, id, sequence, d);
    AcceptedLonger(path);
    hide Accepted; hide CString; hide PutRecords; hide Replay;
    var records := PutRecords(path, data, id, sequence);
    var g := Replay(f, records, d);
    content := ReadFile(g, path, sequence, d);
  }

  lemma AcceptedLonger(path: Path)
    requires Accepted(path, WRITE_PATH + 1)
    ensures Accepted(path, READ_PATH + 1) && |path| <= WRITE_PATH
  {
  }

  // ---- the service in place --------------------------------------------------------------------------------

  class FileService {
    const canon: Path -> Path
    const available: bool
    var files: map<Path, seq<byte>>
    var open: bool
    var transferId: u32
    var expectedSize: u32
    var expectedCrc: u32
    var received: u32
    var register: Register
    var target: Path

    ghost function View(): Flash
      reads this
    {
      Flash(files, canon, open, transferId, expectedSize, expectedCrc, received, register, target, available)
    }

    constructor (canon: Path -> Path, files: map<Path, seq<byte>>, available: bool)
      ensures Inv(View()) && !open && View().canon == canon && View().available == available
      ensures View().files == if available then files - {canon(TEMP)} else files
    {
      this.canon, this.available := canon, available;
      this.files := if available then files - {canon(TEMP)} else files;
      open, transferId, expectedSize, expectedCrc, received, register, target := false, 0, 0, 0, 0, ONES, [];
    }

    method AbortUpload(d: Device)
      modifies this
      ensures View() == Abort(old(View()), d)
    {
      open, transferId, expectedSize, received, register := false, 0, 0, 0, ONES;
      files := if d.removesTemp then files - {canon(TEMP)} else files[canon(TEMP) := d.junk];
    }

    method HandleBegin(r: Message, d: Device) returns (reply: Message)
      requires |r.payload| >= 16
      modifies this
      ensures Served(View(), reply) == WriteBegin(old(View()), r, d)
    {
      hide Load32; hide Le32; hide CString;
      AbortUpload(d);
      if d.openStatus != OK { return Reply(r, FILESYSTEM_RESULT, d.openStatus, []); }
      files := files[canon(TEMP) := []];
      open, transferId := true, Load32(r.payload, 4);
      expectedSize, expectedCrc := Load32(r.payload, 8), Load32(r.payload, 12);
      target := CString(r.payload[16..]);
      return Reply(r, FILESYSTEM_RESULT, OK, [OP_BEGIN, 0, 0, 0] + Le32(transferId));
    }

    method HandleData(r: Message, d: Device) returns (reply: Message)
      requires |r.payload| >= 12
      modifies this
      ensures Served(View(), reply) == WriteData(old(View()), r, d)
    {
      hide Load32; hide Le32; hide Wrap32; hide Absorb;
      var id, offset, data := Load32(r.payload, 4), Load32(r.payload, 8), r.payload[12..];
      if !open || id != transferId || offset != received || Wrap32(offset + |data|) > expectedSize {
        return Reply(r, FILESYSTEM_RESULT, BAD_STATE, []);
      }
      if d.writeStatus != OK {
        AbortUpload(d);
        return Reply(r, FILESYSTEM_RESULT, d.writeStatus, []);
      }
      var temp := canon(TEMP);
      files := files[temp := (if temp in files then files[temp] else []) + data];
      register := RawUpdate(register, data);
      received := Wrap32(received + |data|);
      return Reply(r, FILESYSTEM_RESULT, OK, [OP_DATA, 0, 0, 0] + Le32(id) + Le32(received));
    }

    /** Sync, close, flush, remove the old target, rename, flush. */
    method Rename(d: Device) returns (status: u16)
      modifies this`files
      ensures (files, status) == Publish(old(View()), d)
    {
      var temp, name := canon(TEMP), canon(target);
      if d.syncStatus != OK { return d.syncStatus; }
      if !d.firstFlush { return IO_ERROR; }
      if d.unlinkStatus != OK { return d.unlinkStatus; }
      files := files - {name};
      if temp !in files { return NOT_FOUND; }
      if d.renameStatus != OK { return d.renameStatus; }
      files := files[name := files[temp]] - {temp};
      return if d.secondFlush then OK else IO_ERROR;
    }

    method HandleCommit(r: Message, d: Device) returns (reply: Message)
      requires |r.payload| == 8
      modifies this
      ensures Served(View(), reply) == WriteCommit(old(View()), r, d)
    {
      hide Load32; hide Le32; hide Publish; hide Xor; hide ToWord;
      var id, crc := Load32(r.payload, 4), ToWord(Xor(register, ONES));
      if !open || id != transferId || received != expectedSize {
        return Reply(r, FILESYSTEM_RESULT, BAD_STATE, []);
      }
      if crc != expectedCrc {
        AbortUpload(d);
        return Reply(r, FILESYSTEM_RESULT, BAD_CRC, []);
      }
      var status := Rename(d);
      open := false;
      if status != OK {
        if d.removesTemp { files := files - {canon(TEMP)}; }
        return Reply(r, FILESYSTEM_RESULT, status, []);
      }
      transferId := 0;
      return Reply(r, FILESYSTEM_RESULT, OK, [OP_COMMIT, 0, 0, 0] + Le32(id) + Le32(received) + Le32(crc));
    }

    method HandleRead(r: Message, d: Device) returns (reply: Message)
      requires |r.payload| >= 8
      ensures Served(View(), reply) == ReadChunk(View(), r, d)
    {
      hide Load32; hide CString; hide ReadPayload;
      var name, offset := canon(CString(r.payload[8..])), Load32(r.payload, 4);
      if d.readOpenStatus != OK { return Reply(r, FILESYSTEM_RESULT, d.readOpenStatus, []); }
      if name !in files { return Reply(r, FILESYSTEM_RESULT, NOT_FOUND, []); }
      var content := files[name];
      if offset > |content| || |content| >= W32 { return Reply(r, FILESYSTEM_RESULT, INVALID_PATH, []); }
      if d.readStatus != OK { return Reply(r, FILESYSTEM_RESULT, d.readStatus, []); }
      return Reply(r, FILESYSTEM_RESULT, OK, ReadPayload(content, offset));
    }

    method HandleRequest(r: Message, d: Device) returns (reply: Message)
      requires Addressed(r)
      modifies this
      ensures Served(View(), reply) == Handle(old(View()), r, d)
    {
      hide ReadChunk; hide WriteBegin; hide WriteData; hide WriteCommit; hide Accepted; hide Load16; hide CString;
      var p := r.payload;
      if !available { return Reply(r, FILESYSTEM_RESULT, SERVICE_UNAVAILABLE, []); }
      if p[0] == OP_LIST || p[0] == OP_DF {
        reply := Reply(r, FILESYSTEM_RESULT, d.listStatus, d.listing);
      } else if p[0] == OP_READ && |p| >= 8 && |p| - 8 == p[1] {
        var path := ValidFlashPath(p[8..], READ_PATH + 1);
        if path.None? { return Reply(r, FILESYSTEM_RESULT, INVALID_PATH, []); }
        reply := HandleRead(r, d);
      } else if p[0] == OP_BEGIN && |p| >= 16 && |p| - 16 == p[1] {
        var path := ValidFlashPath(p[16..], WRITE_PATH + 1);
        if path.None? { return Reply(r, FILESYSTEM_RESULT, INVALID_PATH, []); }
        reply := HandleBegin(r, d);
      } else if p[0] == OP_DATA && |p| >= 12 && Load16(p, 2) <= CHUNK && |p| == 12 + Load16(p, 2) {
        reply := HandleData(r, d);
      } else if p[0] == OP_COMMIT && |p| == 8 {
        reply := HandleCommit(r, d);
      } else {
        reply := Reply(r, FILESYSTEM_RESULT, if OP_READ <= p[0] <= OP_COMMIT then BAD_LENGTH else SERVICE_UNAVAILABLE, []);
      }
    }
  }
}
