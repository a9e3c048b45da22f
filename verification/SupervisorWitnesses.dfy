/** Runs that show the exceptions of the supervisor's theorems to be real: a
    workload that rewrites its own image into the calculator's before a RESTART,
    and a Host that writes into the load range of its own upload. */
module SupervisorWitnesses {
  import opened Words
  import opened Protocol
  import opened Backing
  import opened Crc32
  import opened MemoryService
  import opened WorkloadManager
  import opened PeriodicTick
  import opened LaneBus
  import opened ProcessorBus
  import opened Supervisor
  import opened SupervisorRuns

  // ---- an upload as steps of the machine -----------------------------------------------------

  function Uploads(records: seq<Message>): seq<Step> {
    seq(|records|, i requires 0 <= i < |records| => UploadStep(records[i]))
  }

  /** Uploading moves the site as the manager alone does, and nothing physical. */
  lemma {:induction false} UploadsRun(s: Machine, records: seq<Message>)
    ensures var t := SupervisorRuns.Run(s, Uploads(records));
            && t.site == Replay(s.site, records) && t.pins == s.pins
            && t.exec.active == s.exec.active && t.exec.timeoutMs == s.exec.timeoutMs
    decreases records
  {
    hide HandleUpload; hide Stage;
    if records != [] {
      assert Uploads(records)[1..] == Uploads(records[1..]);
      StageFrame(Supervisor.Upload(s, records[0]));
      UploadsRun(Supervisor.Upload(s, records[0]), records[1..]);
      UploadFrame(s, records[0]);
    }
  }

  lemma StageFrame(s: Machine)
    ensures Stage(s).site == s.site && Stage(s).pins == s.pins
    ensures Stage(s).exec.active == s.exec.active && Stage(s).exec.timeoutMs == s.exec.timeoutMs
  {
  }

  lemma UploadFrame(s: Machine, r: Message)
    ensures var t := Supervisor.Upload(s, r);
            && t.site == HandleUpload(s.site, r).site && t.pins == s.pins
            && t.exec.active == s.exec.active && t.exec.timeoutMs == s.exec.timeoutMs
  {
    hide HandleUpload;
  }

  lemma {:induction false} RunAppend(s: Machine, first: seq<Step>, second: seq<Step>)
    ensures SupervisorRuns.Run(s, first + second) == SupervisorRuns.Run(SupervisorRuns.Run(s, first), second)
    decreases first
  {
    hide Next;
    if first == [] {
      assert first + second == second;
    } else {
      assert (first + second)[1..] == first[1..] + second;
      RunAppend(Next(s, first[0]), first[1..], second);
    }
  }

  // ---- the workload -----------------------------------------------------------------------------

  const LOAD: u32 := 0x1_0000

  /** The calculator with its first byte spoiled. */
  const IMAGE: seq<byte> := [0] + CALCULATOR[1..]

  function Declared(): Manifest {
    Manifest(MANIFEST_MAGIC, 1, 40, 16, Checksum(IMAGE), LOAD, 0x1000, 0, 0, 0, 0, 0, 0)
  }

  function Upload16(): seq<Message> {
    Fits();
    UploadRecords(Declared(), IMAGE, 1, 1)
  }

  /** Everything went as the Host asked: the switch, the reset clocks. */
  const WORKING: Hardware := Hardware(true, true, RESET_CLOCKS)

  const GO: ControlInput := ControlInput(StartInput(WORKING, 0), WORKING, Live(true))

  /** The processor stores the byte that is missing. */
  const STORE_BYTE: BusEvent := Cycle(LOAD, true, true, true, true, 1, Samples(0, 0))

  lemma Fits()
    ensures SequencesFit(IMAGE, 1) && |IMAGE| == 16
  {
    assert Pieces(IMAGE, 16) == 0;
    assert Pieces(IMAGE, 0) == 1 + Pieces(IMAGE, 16);
  }

  lemma DeclaredValid(b: Store)
    requires b.available && b.base == 0 && |b.bytes| == 0x40000
    ensures Packable(Declared(), IMAGE) && FirmwareValid(Declared(), b)
  {
    hide Checksum;
  }

  /** Staged, with the spoiled image in place. */
  ghost predicate Spoiled(s: Machine) {
    && s.site.store.available && s.site.store.base == 0 && |s.site.store.bytes| == 0x40000
    && s.site.manager.manifest == Declared() && s.site.manager.workloadId != 0
    && s.exec.timeoutMs == 0 && Read(s.site.store, LOAD, 16) == Some(IMAGE)
  }

  lemma Uploaded(start: Machine)
    requires Initial(start)
    ensures var s := SupervisorRuns.Run(start, Uploads(Upload16()));
            Spoiled(s) && s.site.manager.state.Staged? && !s.exec.active
  {
    Fits();
    DeclaredValid(start.site.store);
    UploadStages(start.site, Declared(), IMAGE, 1, 1);
    UploadsRun(start, Upload16());
    ReadBack(start.site.store, LOAD, IMAGE);
    hide Replay; hide UploadRecords; hide Declared; hide FirmwareValid; hide Put; hide Read; hide SupervisorRuns.Run; hide Uploads;
  }

  lemma NotCalculator(s: Machine)
    requires Spoiled(s)
    ensures !IsCalculator(s.site)
  {
    assert IMAGE[0] != CALCULATOR[0];
    hide Declared;
  }

  ghost predicate Executing(s: Machine) {
    Spoiled(s) && s.site.manager.state.Running? && Serviceable(s) && s.exec.deadlineUs == 0 && !s.exec.tick.enabled
  }

  lemma Boots(s: Machine)
    requires Spoiled(s) && s.site.manager.state.Running? && !s.exec.active
    ensures StartGeneral(s, GO.start).ok && Executing(StartGeneral(s, GO.start).machine)
  {
    hide Read; hide Checksum; hide FirmwareValid; hide InitMailbox; hide Park;
    DeclaredValid(s.site.store);
    MailboxThere(s.site.store);
    MailboxResetKeepsImage(Declared(), s.site.store);
    MailboxShape(s.site.store);
  }

  lemma MailboxThere(b: Store)
    requires b.available && b.base == 0 && |b.bytes| == 0x40000
    ensures InitMailbox(b).Some?
  {
  }

  /** RUN starts it on the general executor. */
  lemma Started(s: Machine)
    requires Spoiled(s) && s.site.manager.state.Staged? && !s.exec.active
    ensures Executing(Next(s, ControlStep(RunIt, 0, GO)))
  {
    hide IsCalculator; hide StartGeneral; hide Executing; hide Read; hide Declared;
    NotCalculator(s);
    Boots(WithState(s, Running));
  }

  lemma StoredByte(b: Store)
    requires b.available && b.base == 0 && |b.bytes| == 0x40000 && Read(b, LOAD, 16) == Some(IMAGE)
    ensures Read(b.(bytes := b.bytes[LOAD := 1]), LOAD, 16) == Some(CALCULATOR)
  {
    assert b.bytes[LOAD..LOAD + 16] == IMAGE;
    forall i | 0 <= i < 16
      ensures b.bytes[LOAD := 1][LOAD + i] == CALCULATOR[i]
    {
      assert b.bytes[LOAD + i] == IMAGE[i];
    }
    assert b.bytes[LOAD := 1][LOAD..LOAD + 16] == CALCULATOR;
  }

  /** The verdict of the service call that serves the store. */
  lemma StoreServed(s: Machine)
    requires Executing(s)
    ensures var c := AtVerdict(s, STORING);
            && c.completed && c.machine.site == s.site.(store := s.site.store.(bytes := s.site.store.bytes[LOAD := 1]))
            && c.machine.exec.active && c.machine.exec.timeoutMs == s.exec.timeoutMs
  {
    hide Read; hide Declared; hide Wrap32; hide Handoff; hide Count; hide Generate;
  }

  const STORING: ServiceInput := ServiceInput(STORE_BYTE, 0, 0, 0, 0, WORKING)

  /** One store of the processor, and the image is the calculator's. */
  lemma Rewritten(s: Machine)
    requires Executing(s)
    ensures var t := Next(s, ServiceStep(STORING));
            t.exec.active && TakesOver(t, RestartIt, 0)
  {
    hide Read; hide AtVerdict; hide Checksum;
    StoredByte(s.site.store);
    StoreServed(s);
  }

  function Session(): seq<Step> {
    Uploads(Upload16()) + [ControlStep(RunIt, 0, GO), ServiceStep(STORING)]
  }

  lemma SessionEnds(start: Machine)
    requires Initial(start)
    ensures AllPlausible(Session())
    ensures var s := SupervisorRuns.Run(start, Session());
            s.exec.active && TakesOver(s, RestartIt, 0)
  {
    hide Spoiled; hide Executing; hide TakesOver; hide Next; hide Uploads; hide Upload16; hide SupervisorRuns.Run;
    Uploaded(start);
    var up := Uploads(Upload16());
    var run, store := ControlStep(RunIt, 0, GO), ServiceStep(STORING);
    var s := SupervisorRuns.Run(start, up);
    Started(s);
    Rewritten(Next(s, run));
    RunAppend(start, up, [run, store]);
    TwoSteps(s, run, store);
    UploadsPlausible();
  }

  /** From every initial state there is a run after which a RESTART takes the
      general executor out of execution and leaves RESET released. */
  lemma HandOverReachable(start: Machine)
    requires Initial(start)
    ensures exists steps :: AllPlausible(steps) && HandsOverLive(SupervisorRuns.Run(start, steps))
  {
    hide TakesOver; hide Session; hide Next; hide SupervisorRuns.Run; hide AllPlausible; hide Initial; hide Safe;
    SessionEnds(start);
    var s := SupervisorRuns.Run(start, Session());
    HandedLive(s, 0, GO);
    assert HandsOverLive(s);
  }

  /** Executing, and a RESTART of id 0 is an exit that is not safe. */
  ghost predicate HandsOverLive(s: Machine) {
    var t := Next(s, ControlStep(RestartIt, 0, GO));
    s.exec.active && !t.exec.active && !t.pins.reset && !Safe(t.pins)
  }

  lemma UploadsPlausible()
    ensures AllPlausible(Uploads(Upload16()))
  {
    hide Upload16;
  }

  lemma TwoSteps(s: Machine, a: Step, b: Step)
    ensures SupervisorRuns.Run(s, [a, b]) == Next(Next(s, a), b)
  {
    hide Next;
    assert [a, b][1..] == [b] && [b][1..] == [];
    assert SupervisorRuns.Run(Next(s, a), [b]) == SupervisorRuns.Run(Next(Next(s, a), b), []);
  }

  // ---- a disturbed upload ---------------------------------------------------------------------------

  lemma {:induction false} TalliedAppend(t: Account, s: Machine, first: seq<Step>, second: seq<Step>)
    ensures TalliedBy(t, s, first + second) == TalliedBy(TalliedBy(t, s, first), SupervisorRuns.Run(s, first), second)
    decreases first
  {
    hide Next; hide Tallied;
    if first == [] {
      assert first + second == second;
    } else {
      assert (first + second)[1..] == first[1..] + second;
      TalliedAppend(Tallied(t, s, first[0]), Next(s, first[0]), first[1..], second);
    }
  }

  function Opening(): seq<Message> {
    Fits();
    [WorkloadManager.BeginRecord(Declared(), 1, 1)] + DataRecords(1, IMAGE, 0, 2)
  }

  /** The whole image is sent, and not yet committed. */
  lemma Opened(start: Machine)
    requires Initial(start)
    ensures Sending(SupervisorRuns.Run(start, Uploads(Opening())), start.site.store)
  {
    hide Midway; hide HandleUpload; hide Declared; hide WorkloadManager.BeginRecord; hide DataRecords; hide FirmwareValid;
    hide SupervisorRuns.Run; hide Uploads; hide HostValid; hide Replay; hide Checksum; hide SequencesFit;
    Fits();
    DeclaredValid(start.site.store);
    DeclaredSize();
    var begin, data := WorkloadManager.BeginRecord(Declared(), 1, 1), DataRecords(1, IMAGE, 0, 2);
    WorkloadManager.BeginHandled(start.site, Declared(), 1, 1);
    BeginMidway(start.site, Declared(), IMAGE, 1);
    DataApplied(HandleUpload(start.site, begin).site, start.site.store, 1, IMAGE, 0, 2);
    ReplayOne(start.site, begin);
    WorkloadManager.ReplayAppend(start.site, [begin], data);
    UploadsRun(start, Opening());
    assert [begin] + data == Opening();
  }

  ghost predicate Sending(s: Machine, base: Store) {
    Midway(s.site, base, 1, IMAGE, 16) && s.site.manager.manifest == Declared()
  }

  lemma DeclaredSize()
    ensures Declared().imageSize == |IMAGE| == 16 && Declared().loadAddress == LOAD && Declared().imageCrc == Checksum(IMAGE)
  {
    hide Checksum;
  }

  lemma {:induction false} UploadsUndisturbed(s: Machine, records: seq<Message>)
    ensures Undisturbed(s, Uploads(records)) && AllPlausible(Uploads(records))
    decreases records
  {
    hide Next;
    if records != [] {
      assert Uploads(records)[1..] == Uploads(records[1..]);
      UploadsUndisturbed(Next(s, UploadStep(records[0])), records[1..]);
    }
  }

  lemma HeldWhole(s: Machine, base: Store, t: Account)
    requires Sending(s, base) && UploadInv(s.site, t.sent, t.held)
    ensures t.held == IMAGE && s.site.manager.state.Receiving?
  {
    hide Reference; hide FirmwareValid;
    DeclaredSize();
    hide Declared;
    ReadBack(base, LOAD, IMAGE);
    assert IMAGE[..16] == IMAGE;
  }

  lemma OpeningSent(start: Machine)
    requires Initial(start)
    ensures TalliedBy(NOTHING, start, Uploads(Opening())).sent == IMAGE
  {
    hide SupervisorRuns.Run; hide Uploads; hide Opening; hide TalliedBy; hide Sending; hide Inv; hide Undisturbed; hide AllPlausible;
    Opened(start);
    InitialInv(start);
    UploadsUndisturbed(start, Opening());
    RunGathers(start, NOTHING, Uploads(Opening()));
    RunAgrees(start, NOTHING, Uploads(Opening()));
    HeldWhole(SupervisorRuns.Run(start, Uploads(Opening())), start.site.store, TalliedBy(NOTHING, start, Uploads(Opening())));
  }

  const OVERWRITE: Message := WriteRecord(LOAD, [1], 9)

  /** The Host's write record, while receiving, is applied. */
  lemma Overwritten(s: Machine)
    requires s.site.manager.state.Receiving? && RangeValid(s.site.store, LOAD, 1)
    ensures HostMemory(s, OVERWRITE) == s.(site := s.site.(store := Put(s.site.store, LOAD, [1])))
  {
    WriteHandled(s.site.store, Policy(s.site.store, false), LOAD, [1], 9);
    hide Handle;
  }

  /** After these steps the commit is accepted, and finds something other than what was sent. */
  ghost predicate CommitMisses(start: Machine, steps: seq<Step>, r: Message) {
    && AllPlausible(steps) && r.kind == WORKLOAD_COMMIT
    && HandleUpload(SupervisorRuns.Run(start, steps).site, r).status == OK
    && MissesSent(Next(SupervisorRuns.Run(start, steps), UploadStep(r)).site, TalliedBy(NOTHING, start, steps).sent)
  }

  lemma OverwriteRun(start: Machine)
    requires Initial(start)
    ensures var up, s := Uploads(Opening()), SupervisorRuns.Run(start, Uploads(Opening()));
            && SupervisorRuns.Run(start, up + [MemoryStep(OVERWRITE)]) == HostMemory(s, OVERWRITE)
            && TalliedBy(NOTHING, start, up + [MemoryStep(OVERWRITE)]).sent == TalliedBy(NOTHING, start, up).sent
            && AllPlausible(up + [MemoryStep(OVERWRITE)])
  {
    hide SupervisorRuns.Run; hide Uploads; hide Opening; hide TalliedBy; hide HostMemory; hide Initial;
    var up := Uploads(Opening());
    RunAppend(start, up, [MemoryStep(OVERWRITE)]);
    TalliedAppend(NOTHING, start, up, [MemoryStep(OVERWRITE)]);
    LastMemory(SupervisorRuns.Run(start, up), OVERWRITE, TalliedBy(NOTHING, start, up));
    UploadsUndisturbed(start, Opening());
  }

  /** A write into the load range between DATA and COMMIT: the commit is still
      accepted, and what it finds is not what was sent. */
  lemma DisturbedCommit(start: Machine)
    requires Initial(start)
    ensures exists steps: seq<Step>, r: Message :: CommitMisses(start, steps, r)
  {
    hide SupervisorRuns.Run; hide Uploads; hide Opening; hide Reference; hide TalliedBy; hide HandleUpload; hide Stage; hide Read;
    hide Sending; hide HostMemory; hide Initial; hide MissesSent; hide Checksum; hide WorkloadManager.CommitRecord; hide Put;
    hide AllPlausible;
    OpeningSent(start);
    Opened(start);
    OverwriteRun(start);
    var s := SupervisorRuns.Run(start, Uploads(Opening()));
    var steps := Uploads(Opening()) + [MemoryStep(OVERWRITE)];
    var r := WorkloadManager.CommitRecord(1, Checksum(IMAGE), 3);
    CommitAfter(start, s);
    Overwritten(s);
    CommitKind();
    UploadSiteOnly(SupervisorRuns.Run(start, steps), r);
    assert CommitMisses(start, steps, r);
  }

  ghost predicate MissesSent(s: Site, sent: seq<byte>) {
    s.manager.state.Staged? && Read(s.store, s.manager.manifest.loadAddress, s.manager.manifest.imageSize) != Some(sent)
  }

  lemma CommitKind()
    ensures WorkloadManager.CommitRecord(1, Checksum(IMAGE), 3).kind == WORKLOAD_COMMIT
  {
  }

  lemma LastMemory(s: Machine, r: Message, t: Account)
    ensures SupervisorRuns.Run(s, [MemoryStep(r)]) == HostMemory(s, r)
    ensures TalliedBy(t, s, [MemoryStep(r)]).sent == t.sent
  {
    hide HostMemory; hide WriteApplied; hide Patched;
    assert [MemoryStep(r)][1..] == [];
  }

  lemma CommitAfter(start: Machine, s: Machine)
    requires Initial(start) && Sending(s, start.site.store)
    ensures s.site.manager.state.Receiving? && RangeValid(s.site.store, LOAD, 1)
    ensures var after := s.site.(store := Put(s.site.store, LOAD, [1]));
            var h := HandleUpload(after, WorkloadManager.CommitRecord(1, Checksum(IMAGE), 3));
            h.status == OK && MissesSent(h.site, IMAGE)
  {
    hide Reference;
    DeclaredSize();
    hide Declared;
    var b := s.site.store;
    assert IMAGE[..16] == IMAGE;
    ReadBack(start.site.store, LOAD, IMAGE);
    StoredByte(b);
    assert Put(b, LOAD, [1]).bytes == b.bytes[LOAD := 1];
    assert IMAGE[0] != CALCULATOR[0];
    var after := s.site.(store := Put(b, LOAD, [1]));
    WorkloadManager.CommitHandled(after, 1, Checksum(IMAGE), 3);
    hide HandleUpload;
  }
}
