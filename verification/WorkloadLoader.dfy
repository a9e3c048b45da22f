/** The workload manager as the firmware runs it, on storage it fills in place. */
module WorkloadLoader {
  import opened Words
  import opened Protocol
  import opened Backing
  import opened Crc32
  import opened WorkloadManager

  class Loader {
    const storage: Storage
    var manifest: Manifest
    var transferId: u32
    var workloadId: u32
    var received: u32
    var crc: Register
    var state: State

    ghost function View(): Site
      reads this, storage.bytes
    {
      Site(Manager(manifest, transferId, workloadId, received, crc, state), storage.View())
    }

    constructor (storage: Storage)
      ensures this.storage == storage && View() == Site(INITIAL, storage.View())
    {
      this.storage := storage;
      manifest, transferId, workloadId, received, crc, state := NO_MANIFEST, 0, 0, 0, ZERO, Empty;
    }

    method BeginTransfer(id: u32, m: Manifest) returns (ok: bool)
      modifies this
      ensures ok == BeginAllowed(old(View()).manager, old(View()).store, m)
      ensures View() == HandleBegin(old(View()), id, m).site
    {
      if !ManifestAccepted(m) || state.Running? || state.Completed? { return false; }
      manifest := m;
      transferId := id;
      received := 0;
      crc := ZERO;
      state := Receiving;
      return true;
    }

    /** `manifest_valid`, in its order of tests. */
    predicate ManifestAccepted(m: Manifest)
      reads storage.bytes
      ensures ManifestAccepted(m) == FirmwareValid(m, storage.View())
    {
      if !Tagged(m) || m.imageSize == 0 || !storage.available then false
      else
        var imageEnd := Wrap32(m.loadAddress + m.imageSize);
        if m.loadAddress >= WorkloadManager.SPACE || imageEnd < m.loadAddress || imageEnd > WorkloadManager.SPACE
           || !storage.InRange(m.loadAddress, m.imageSize) then false
        else if m.loadAddress < 0x3F000 + 0x1000 && imageEnd > 0x3F000 then false
        else
          var entry := Linear(m.entrySegment, m.entryOffset);
          if entry < m.loadAddress || entry >= imageEnd then false
          else if (m.stackSegment != 0 || m.stackOffset != 0) && !StackAccepted(Linear(m.stackSegment, m.stackOffset)) then false
          else if !ClockFlagsValid(m.flags) || (m.sharedSize == 0) != !SharedFlag(m.flags) then false
          else
            var sharedEnd := Wrap32(m.sharedBase + m.sharedSize);
            m.sharedSize == 0 || (sharedEnd >= m.sharedBase && sharedEnd <= WorkloadManager.SPACE
                                  && storage.InRange(m.sharedBase, m.sharedSize))
    }

    predicate StackAccepted(stack: nat)
      reads storage.bytes
    {
      stack < WorkloadManager.SPACE && stack < 0x3F000 && storage.InRange(stack, 2)
    }

    method WriteChunk(id: u32, offset: u32, data: seq<byte>) returns (ok: bool)
      requires received <= manifest.imageSize
      modifies this, storage.bytes
      ensures ok == WriteAllowed(old(View()).manager, old(View()).store, id, offset, data)
      ensures View() == HandleData(old(View()), id, offset, data).site
    {
      hide ManagerUpdate;
      if !state.Receiving? || id != transferId || offset != received || data == []
         || |data| > manifest.imageSize - received { return false; }
      var address := Wrap32(manifest.loadAddress + offset);
      ok := storage.WriteRange(address, data);
      if !ok { return; }
      crc := ComplementedUpdate(crc, data);
      received := received + |data|;
    }

    method CommitTransfer(id: u32, expected: u32) returns (ok: bool)
      modifies this
      ensures ok == CommitAllowed(old(View()).manager, id, expected)
      ensures View() == HandleCommit(old(View()), id, expected).site
    {
      if !state.Receiving? { return false; }
      if id != transferId || received != manifest.imageSize || expected != manifest.imageCrc || ToWord(crc) != expected {
        state := Faulted;
        return false;
      }
      workloadId := if workloadId == 0xffff_ffff then 0 else workloadId + 1;
      if workloadId == 0 { workloadId := 1; }
      state := Staged;
      return true;
    }

    /** One upload record and the status it is answered with. */
    method HandleUploadRecord(r: Message) returns (status: u16)
      requires received <= manifest.imageSize
      modifies this, storage.bytes
      ensures Outcome(View(), status) == HandleUpload(old(View()), r)
      ensures received <= manifest.imageSize
    {
      hide FirmwareValid; hide ManagerUpdate; hide Decode; hide ToWord;
      if r.status != OK { return BAD_WORKLOAD; }
      if r.kind == WORKLOAD_BEGIN && |r.payload| == 4 + MANIFEST_SIZE {
        var begun := BeginTransfer(Load32(r.payload, 0), Decode(r.payload, 4));
        return if begun then OK else BAD_WORKLOAD;
      }
      if r.kind == WORKLOAD_DATA && |r.payload| > 8 {
        var written := WriteChunk(Load32(r.payload, 0), Load32(r.payload, 4), r.payload[8..]);
        return if written then OK else BAD_SEQUENCE;
      }
      if r.kind == WORKLOAD_COMMIT && |r.payload| == 8 {
        var wasReceiving := state.Receiving?;
        var committed := CommitTransfer(Load32(r.payload, 0), Load32(r.payload, 4));
        return if committed then OK else if wasReceiving then BAD_CRC else BAD_SEQUENCE;
      }
      return BAD_LENGTH;
    }

    method RunWorkload(id: u32) returns (ok: bool)
      modifies this`state
      ensures ok == RunAllowed(old(View()).manager, id)
      ensures state == if ok then Running else old(state)
    {
      if workloadId == 0 || (id != 0 && id != workloadId) || (!state.Staged? && !state.Stopped?) { return false; }
      state := Running;
      return true;
    }

    method StopWorkload(id: u32) returns (ok: bool)
      modifies this`state
      ensures ok == StopAllowed(old(View()).manager, id)
      ensures state == if ok then Stopped else old(state)
    {
      if workloadId == 0 || (id != 0 && id != workloadId) || (!state.Running? && !state.Completed?) { return false; }
      state := Stopped;
      return true;
    }

    method CompleteWorkload(id: u32) returns (ok: bool)
      modifies this`state
      ensures ok == CompleteAllowed(old(View()).manager, id)
      ensures state == if ok then Completed else old(state)
    {
      if workloadId == 0 || (id != 0 && id != workloadId) || !state.Running? { return false; }
      state := Completed;
      return true;
    }

    method RestartWorkload(id: u32) returns (ok: bool)
      modifies this`state
      ensures ok == RestartAllowed(old(View()).manager, id)
      ensures state == if ok then Running else old(state)
    {
      if workloadId == 0 || (id != 0 && id != workloadId)
         || (!state.Staged? && !state.Running? && !state.Stopped? && !state.Completed?) { return false; }
      state := Running;
      return true;
    }
  }
}
