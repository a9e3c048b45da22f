/** How each Host record is answered, in every reachable state: control records
    and starts, upload records and memory writes, on the state, ids, flags and
    bytes written out, and on what the clock answers. */
module RecordVerdicts {
  import opened Words
  import opened Protocol
  import opened Backing
  import opened Crc32
  import opened MemoryService
  import opened WorkloadManager
  import opened PeriodicTick
  import opened LaneBus
  import opened ProcessorBus
  import opened NativeOutput
  import opened Supervisor
  import opened SupervisorRuns

  // ---- control records -------------------------------------------------------------------

  /** The record names the workload there is. */
  predicate Named(m: Manager, id: u32) { m.workloadId != 0 && (id == 0 || id == m.workloadId) }

  /** Sixteen bytes that add, subtract, multiply and divide, entered at their start. */
  predicate HoldsCalculator(site: Site) {
    var m := site.manager;
    var load: nat := m.manifest.loadAddress;
    && (m.state.Staged? || m.state.Stopped? || m.state.Running?)
    && m.manifest.imageSize == 16 && m.manifest.entrySegment * 16 + m.manifest.entryOffset == load
    && load + 16 <= |site.store.bytes|
    && site.store.bytes[load..load + 16]
       == [0x01, 0xC8, 0xCB, 0x90, 0x29, 0xC8, 0xCB, 0x90, 0xF7, 0xE1, 0xCB, 0x90, 0xF7, 0xF1, 0xCB, 0x90]
  }

  /** The clock can be single-stepped, and all twenty reset clocks are answered. */
  predicate ClockAnswers(clock: ClockMode, h: Hardware) {
    && (clock.Stepped? || (clock.Stopped? && h.prepares) || (clock.FreeRunning? && h.stops && h.prepares))
    && h.answers >= 20
  }

  /** What decides a start once the manager has let it through. */
  predicate Starts(s: Machine, input: ControlInput) {
    if HoldsCalculator(s.site) then input.prepared == Live(true)
    else s.site.manager.manifest.flags / 8 % 2 == 0
         && ClockAnswers(if s.exec.active then ClockMode.Stopped else s.pins.clock, input.start.clock)
  }

  predicate PastManager(s: Machine, op: Operation, id: u32) {
    var state := s.site.manager.state;
    && Named(s.site.manager, id) && !(HoldsCalculator(s.site) && s.exec.timeoutMs != 0)
    && (op.RunIt? ==> state.Staged? || state.Stopped?)
    && (op.RestartIt? ==> state.Staged? || state.Running? || state.Stopped? || state.Completed?)
  }

  /** The status every control record is answered with. */
  function Answered(s: Machine, op: Operation, id: u32, input: ControlInput): u16 {
    var m := s.site.manager;
    match op
    case StatusIt => if id == 0 || id == m.workloadId then OK else BAD_WORKLOAD
    case StopIt => if Named(m, id) && (m.state.Running? || m.state.Completed?) then OK else BAD_STATE
    case UnknownOperation => BAD_WORKLOAD
    case _ =>
      if HoldsCalculator(s.site) && s.exec.timeoutMs != 0 then BAD_STATE
      else if PastManager(s, op, id) && Starts(s, input) then OK
      else BAD_WORKLOAD
  }

  lemma CalculatorThere(site: Site)
    requires SiteInv(site)
    ensures IsCalculator(site) <==> HoldsCalculator(site)
  {
    hide FirmwareValid;
  }

  /** A start of the general executor succeeds exactly if nothing is left unanswered. */
  lemma StartSucceeds(s: Machine, input: StartInput)
    requires SiteInv(s.site)
    ensures StartGeneral(s, input).ok
            <==> s.site.manager.manifest.flags / 8 % 2 == 0 && ClockAnswers(s.pins.clock, input.clock)
  {
    hide FirmwareValid; hide Fresh; hide Handoff;
  }

  lemma StartNowStatus(s: Machine, t: Machine, input: ControlInput)
    requires SiteInv(s.site) && t.site == s.site.(manager := t.site.manager) && t.site.manager.manifest == s.site.manager.manifest
    requires t.pins.clock == if s.exec.active then ClockMode.Stopped else s.pins.clock
    requires SiteInv(t.site)
    ensures StartNow(t, IsCalculator(s.site), input).status == if Starts(s, input) then OK else BAD_WORKLOAD
  {
    hide SiteInv; hide StartGeneral; hide IsCalculator; hide HoldsCalculator; hide ClockAnswers;
    CalculatorThere(s.site);
    StartSucceeds(t, input.start);
  }

  lemma HaltStopsClock(s: Machine, halt: Hardware)
    requires s.exec.active
    ensures StopGeneral(s, halt).pins.clock.Stopped?
  {
  }

  lemma RunningSite(s: Machine)
    requires SiteInv(s.site) && !s.site.manager.state.Empty?
    ensures SiteInv(WithState(s, Running).site)
  {
    WithStateSite(s, Running);
  }

  lemma NamedIsThere(s: Machine)
    requires Inv(s)
    ensures SiteInv(s.site) && s.site.store.base == 0 && |s.site.store.bytes| == 0x40000
    ensures s.exec.active ==> Busy(s.site.manager)
  {
    hide FirmwareValid;
  }

  /** In every reachable state: what a control record is answered is decided by
      the state of the workload, its ids, its image and flags, and by what the
      clock answers, whatever the time limit. */
  lemma ControlAccepted(start: Machine, steps: seq<Step>, op: Operation, id: u32, input: ControlInput)
    requires Initial(start) && AllPlausible(steps)
    ensures var s := SupervisorRuns.Run(start, steps);
            Control(s, op, id, input).status == Answered(s, op, id, input)
    ensures var s := SupervisorRuns.Run(start, steps);
            (op.RunIt? || op.RestartIt?) && !PastManager(s, op, id) ==> Control(s, op, id, input).machine == s
  {
    hide SupervisorRuns.Run; hide Initial; hide AllPlausible; hide Inv; hide SiteInv; hide StartNow; hide StopGeneral;
    hide IsCalculator; hide HoldsCalculator; hide Starts;
    Reached(start, steps);
    var s := SupervisorRuns.Run(start, steps);
    NamedIsThere(s);
    CalculatorThere(s.site);
    if op.RunIt? && PastManager(s, op, id) {
      RunningSite(s);
      StartNowStatus(s, WithState(s, Running), input);
    }
    if op.RestartIt? && PastManager(s, op, id) {
      RunningSite(s);
      var t := WithState(s, Running);
      StopManager(t, input.halt);
      if s.exec.active {
        HaltStopsClock(t, input.halt);
        StartNowStatus(s, StopGeneral(t, input.halt), input);
      } else {
        StartNowStatus(s, t, input);
      }
    }
  }

  // ---- what they leave -------------------------------------------------------------------

  /** The start of a fresh execution: the account, the result and the starvation
      of the last are gone, the tick runs exactly if the manifest asks for it, time
      and limit count from `now`, and the mailbox page is blank and the Host's. */
  ghost predicate FreshlyStarted(s: Machine, now: nat, r: Machine) {
    var e, m := r.exec, s.site.manager;
    && r.site.manager == m.(state := Running) && e.active && !e.idle && !e.idleArmed && e.starvationUs == 0
    && e.reason.NoReason? && e.console == Console([], [], false, false, false)
    && e.stats.counters == Counters(0, 0, 0, 0, 0, 0) && !e.stats.seen
    && e.tick.enabled == (m.manifest.flags / 32 % 2 == 1) && e.tick.generated == 0 && !e.tick.pending
    && e.startedUs == now && e.timeoutMs == s.exec.timeoutMs
    && e.deadlineUs == (if s.exec.timeoutMs == 0 then 0 else now + 1000 * s.exec.timeoutMs)
    && !r.pins.reset && !r.pins.intr && r.pins.clock.Stepped? && r.busActive
    && e.diagWorkload == m.workloadId && e.diagBoot == r.bootId == NextId(s.bootId)
    && BlankMailbox(s.site.store.bytes, r.site.store.bytes)
  }

  /** Memory with a blank mailbox page under the Host's ownership, as it was elsewhere. */
  ghost predicate BlankMailbox(before: seq<byte>, after: seq<byte>) {
    && |before| == |after| == 0x40000 && after[..0x3F000] == before[..0x3F000]
    && after[0x3F000..0x3F00A] == [0x52, 0x38, 0x36, 0x4D, 1, 0, 32, 0, 1, 0]
    && forall i :: 0x3F00A <= i < 0x40000 ==> after[i] == 0
  }

  lemma MailboxBlank(b: Store)
    requires InitMailbox(b).Some? && b.base == 0 && |b.bytes| == 0x40000
    ensures BlankMailbox(b.bytes, InitMailbox(b).value.bytes)
  {
    var after := InitMailbox(b).value.bytes;
    var h := Header(OWNER_HOST, STATUS_EMPTY, 0, 0);
    assert h[..10] == [0x52, 0x38, 0x36, 0x4D, 1, 0, 32, 0, 1, 0];
    assert forall i :: 10 <= i < 32 ==> h[i] == 0;
    assert after[0x3F000..0x3F00A] == h[..10];
    assert after[..0x3F000] == b.bytes[..0x3F000];
  }

  lemma LaunchFresh(s: Machine, input: StartInput)
    requires s.site.manager.state.Running? && s.site.store.base == 0 && |s.site.store.bytes| == 0x40000
    ensures StartGeneral(s, input).ok ==> FreshlyStarted(s, s.log.clock + input.later, StartGeneral(s, input).machine)
  {
    hide InitMailbox; hide NextId; hide BlankMailbox;
    if InitMailbox(s.site.store).Some? { MailboxBlank(s.site.store); }
  }

  lemma StopKeeps(s: Machine, halt: Hardware)
    ensures var t := StopGeneral(s, halt);
            t.site == s.site && t.log == s.log && t.exec.timeoutMs == s.exec.timeoutMs && t.bootId == s.bootId
  {
  }

  lemma SameStart(s: Machine, t: Machine, now: nat, r: Machine)
    requires t.site == s.site.(manager := s.site.manager.(state := Running)) && t.exec.timeoutMs == s.exec.timeoutMs && t.bootId == s.bootId
    ensures FreshlyStarted(t, now, r) ==> FreshlyStarted(s, now, r)
  {
  }

  /** A start that is answered OK, unless it is the calculator's, is a fresh execution. */
  lemma FreshExecution(start: Machine, steps: seq<Step>, op: Operation, id: u32, input: ControlInput)
    requires Initial(start) && AllPlausible(steps) && (op.RunIt? || op.RestartIt?)
    ensures var s := SupervisorRuns.Run(start, steps);
            var r := Control(s, op, id, input);
            r.status == OK && !HoldsCalculator(s.site) ==>
              FreshlyStarted(s, s.log.clock + input.start.later, r.machine)
  {
    hide SupervisorRuns.Run; hide Initial; hide AllPlausible; hide Inv; hide SiteInv; hide StartGeneral; hide StopGeneral;
    hide IsCalculator; hide HoldsCalculator; hide RunAllowed; hide RestartAllowed; hide FreshlyStarted;
    Reached(start, steps);
    var s := SupervisorRuns.Run(start, steps);
    NamedIsThere(s);
    CalculatorThere(s.site);
    var t := WithState(s, Running);
    var u := StopGeneral(t, input.halt);
    var now := s.log.clock + input.start.later;
    var r := Control(s, op, id, input).machine;
    StopKeeps(t, input.halt);
    LaunchFresh(t, input.start);
    LaunchFresh(u, input.start);
    SameStart(s, t, now, r);
    SameStart(s, u, now, r);
  }

  lemma StartFails(s: Machine, input: StartInput)
    ensures !StartGeneral(s, input).ok ==> StartGeneral(s, input).machine.exec.reason.StartFailure?
  {
    hide InitMailbox; hide NextId;
  }

  lemma StopLeaves(s: Machine, halt: Hardware)
    requires s.exec.active
    ensures var t := StopGeneral(s, halt);
            Safe(t.pins) && !t.busActive && t.exec.reason == if s.exec.reason.NoReason? then StopRequested else s.exec.reason
  {
  }

  lemma ReasonSoFar(s: Machine)
    requires Inv(s) && s.exec.active
    ensures s.exec.reason == (if s.site.manager.state.Completed? then NativeHlt else NoReason)
  {
    hide WatchedInv; hide SiteInv; hide StatsInv;
  }

  /** In every reachable state: STOP of an execution leaves a safe bus and says
      STOP_REQUESTED, unless the workload had halted by itself; a start that fails
      past the manager says so and leaves the workload faulted. */
  lemma ControlLeaves(start: Machine, steps: seq<Step>, op: Operation, id: u32, input: ControlInput)
    requires Initial(start) && AllPlausible(steps)
    ensures var s := SupervisorRuns.Run(start, steps);
            var t := Control(s, op, id, input).machine;
            && (op.StopIt? && Answered(s, op, id, input) == OK ==>
                  && t.site == s.site.(manager := s.site.manager.(state := State.Stopped)) && !t.exec.active
                  && (s.exec.active ==> Safe(t.pins) && !t.busActive
                                        && t.exec.reason == if s.site.manager.state.Completed? then NativeHlt else StopRequested))
            && ((op.RunIt? || op.RestartIt?) && PastManager(s, op, id) && !HoldsCalculator(s.site) && !Starts(s, input) ==>
                  t.site.manager.state.Faulted? && !t.exec.active && t.exec.reason.StartFailure?)
  {
    hide SupervisorRuns.Run; hide Initial; hide AllPlausible; hide Inv; hide SiteInv; hide StartGeneral; hide StopGeneral;
    hide IsCalculator; hide HoldsCalculator; hide Starts; hide Safe; hide ReachesStepped;
    ControlAccepted(start, steps, op, id, input);
    ControlAnswers(start, steps, op, id, input);
    Reached(start, steps);
    var s := SupervisorRuns.Run(start, steps);
    NamedIsThere(s);
    CalculatorThere(s.site);
    var t := WithState(s, Running);
    StartFails(t, input.start);
    StartFails(StopGeneral(t, input.halt), input.start);
    StopManager(WithState(s, State.Stopped), input.halt);
    if s.exec.active {
      ReasonSoFar(s);
      StopLeaves(WithState(s, State.Stopped), input.halt);
    }
  }

  // ---- upload records --------------------------------------------------------------------

  /** The answer to an upload record and what it leaves, given the payloads
      accepted since the last BEGIN. */
  ghost predicate UploadVerdict(s: Site, sent: seq<byte>, r: Message, status: u16, t: Site) {
    var m, p, kind := s.manager, r.payload, r.kind;
    if r.status != 0 then status == BAD_WORKLOAD && t == s
    else if kind == 0x20 && |p| == 44 then
      var manifest := Decode(p, 4);
      if FirmwareValid(manifest, s.store) && !m.state.Running? && !m.state.Completed?
      then
        && status == OK && t.store == s.store && t.manager.state.Receiving? && t.manager.manifest == manifest
        && t.manager.transferId == Load32(p, 0) && t.manager.workloadId == m.workloadId && t.manager.received == 0
      else status == BAD_WORKLOAD && t == s
    else if kind == 0x21 && |p| > 8 then
      if && m.state.Receiving? && Load32(p, 0) == m.transferId && Load32(p, 4) == |sent|
         && |sent| + |p| - 8 <= m.manifest.imageSize
      then
        && status == OK && t.store == Write(s.store, m.manifest.loadAddress + |sent|, p[8..])
        && t.manager == m.(received := |sent| + |p| - 8, crc := t.manager.crc)
      else status == BAD_SEQUENCE && t == s
    else if kind == 0x22 && |p| == 8 then
      if !m.state.Receiving? then status == BAD_SEQUENCE && t == s
      else if Load32(p, 0) == m.transferId && |sent| == m.manifest.imageSize && Load32(p, 4) == m.manifest.imageCrc == Checksum(sent)
      then status == OK && t == s.(manager := m.(workloadId := if m.workloadId == 0xFFFF_FFFF then 1 else m.workloadId + 1, state := Staged))
      else status == BAD_CRC && t == s.(manager := m.(state := Faulted))
    else status == BAD_LENGTH && t == s
  }

  lemma UploadJudged(s: Site, sent: seq<byte>, held: seq<byte>, r: Message)
    requires UploadInv(s, sent, held)
    ensures UploadVerdict(s, sent, r, HandleUpload(s, r).status, HandleUpload(s, r).site)
  {
    hide Decode; hide Load32; hide Reference; hide ManagerUpdate; hide Read; hide ToWord;
    var m := s.manager;
    if m.state.Receiving? && r.kind == WORKLOAD_DATA && |r.payload| > 8 {
      if Load32(r.payload, 4) == |sent| && |sent| + |r.payload| - 8 <= m.manifest.imageSize {
        InsideImage(m.manifest, s.store, |sent|, |r.payload| - 8);
      }
    }
    hide FirmwareValid; hide RangeValid;
  }

  lemma InsideImage(m: Manifest, b: Store, offset: nat, length: nat)
    requires FirmwareValid(m, b) && offset + length <= m.imageSize
    ensures Wrap32(m.loadAddress + offset) == m.loadAddress + offset && RangeValid(b, m.loadAddress + offset, length)
  {
    ValidatorsAgree(m, b);
    Wrap32Small(m.loadAddress + offset);
  }

  /** After any run: exactly which upload records are taken. BEGIN needs a valid
      manifest and no execution; DATA the open transfer and the next bytes of it;
      COMMIT the whole image with the declared checksum, and faults the transfer
      otherwise. A record that is refused in any other way changes nothing. */
  lemma UploadAnswers(start: Machine, steps: seq<Step>, r: Message)
    requires Initial(start) && AllPlausible(steps)
    ensures var s := SupervisorRuns.Run(start, steps);
            UploadVerdict(s.site, TalliedBy(NOTHING, start, steps).sent, r,
                          HandleUpload(s.site, r).status, SupervisorRuns.Next(s, UploadStep(r)).site)
  {
    hide SupervisorRuns.Run; hide TalliedBy; hide Inv; hide AllPlausible; hide UploadVerdict; hide UploadInv; hide HandleUpload;
    hide Upload;
    InitialInv(start);
    NothingSent(start);
    RunGathers(start, NOTHING, steps);
    var account := TalliedBy(NOTHING, start, steps);
    UploadJudged(SupervisorRuns.Run(start, steps).site, account.sent, account.held, r);
    UploadSiteOnly(SupervisorRuns.Run(start, steps), r);
  }

  lemma NothingSent(start: Machine)
    requires Initial(start)
    ensures UploadInv(start.site, NOTHING.sent, NOTHING.held)
  {
  }

  // ---- memory writes ---------------------------------------------------------------------

  /** The first ten bytes of the mailbox page give it to the Host. */
  predicate GivenToHost(bytes: seq<byte>) {
    |bytes| == 0x40000 && bytes[0x3F000..0x3F00A] == [0x52, 0x38, 0x36, 0x4D, 1, 0, 32, 0, 1, 0]
  }

  lemma HeaderBytes(h: seq<byte>)
    requires |h| == HEADER_SIZE
    ensures OwnedHeader(h) <==> h[..10] == [0x52, 0x38, 0x36, 0x4D, 1, 0, 32, 0, 1, 0]
  {
    assert |h[..10]| == 10 && forall i :: 0 <= i < 10 ==> h[..10][i] == h[i];
    if OwnedHeader(h) {
      assert h[0] == 0x52 && h[1] == 0x38 && h[2] == 0x36 && h[3] == 0x4D;
      assert h[4] == 1 && h[5] == 0 && h[6] == 32 && h[7] == 0 && h[8] == 1 && h[9] == 0;
    }
  }

  lemma OwnedBytes(b: Store)
    requires b.available && b.base == 0 && |b.bytes| == 0x40000
    ensures HostOwned(b) <==> GivenToHost(b.bytes)
  {
    hide OwnedHeader;
    var h := b.bytes[0x3F000..0x3F020];
    HeaderBytes(h);
    assert h[..10] == b.bytes[0x3F000..0x3F00A];
  }

  /** A well-formed write of at most 40 bytes. */
  predicate IsWrite(r: Message) {
    && r.version == 1 && r.kind == 0x50 && r.status == 0 && |r.payload| >= 12 && r.payload[0] == 2
    && |r.payload| == 12 + Load32(r.payload, 8) && |r.payload| <= 52
  }

  predicate WriteVerdict(s: Site, r: Message, status: u16, t: Site)
    requires IsWrite(r)
  {
    var address, data := Load32(r.payload, 4), r.payload[12..];
    if address + |data| > 0x40000 then status == BAD_LENGTH && t == s
    else if && s.manager.state.Running?
            && !(address >= 0x3F000 && (GivenToHost(s.store.bytes) || (address == 0x3F000 && data == [])))
    then status == BAD_STATE && t == s
    else status == OK && t == s.(store := Write(s.store, address, data))
  }

  /** In every reachable state: a memory write is applied and answered OK inside
      the 256 KiB unless the workload runs, and then only on a mailbox page that
      its header gives to the Host; otherwise it changes nothing. */
  lemma WriteAnswers(start: Machine, steps: seq<Step>, r: Message)
    requires Initial(start) && AllPlausible(steps) && IsWrite(r)
    ensures var s := SupervisorRuns.Run(start, steps);
            WriteVerdict(s.site, r, Dispatch(s.site.store, s.site.manager.state.Running?, r).reply.status,
                         SupervisorRuns.Next(s, MemoryStep(r)).site)
  {
    hide SupervisorRuns.Run; hide Inv; hide AllPlausible; hide Initial; hide HostOwned; hide GivenToHost; hide Load32; hide Overlay;
    Reached(start, steps);
    var s := SupervisorRuns.Run(start, steps);
    NamedIsThere(s);
    Available(s.site);
    OwnedBytes(s.site.store);
    hide SiteInv;
  }

  lemma Available(site: Site)
    requires SiteInv(site)
    ensures site.store.available
  {
    hide FirmwareValid;
  }
}
