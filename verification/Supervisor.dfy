/** The execution supervisor as one machine: upload and lifecycle manager,
    general executor, bus safety layer and record dispatcher. Every Host record
    and every service call is a step; a run is any sequence of steps. */
module Supervisor {
  import opened Words
  import opened Protocol
  import opened Backing
  import opened MemoryService
  import opened WorkloadManager
  import opened PeriodicTick
  import opened LaneBus
  import opened ProcessorBus
  import opened NativeOutput
  import opened Crc32

  const TIMEOUT_MAX_MS: nat := 86_400_000
  const STARVATION_US: nat := 100_000
  const RESET_BASE: nat := 0xFFFF0

  datatype Reason = NoReason | StopRequested | NativeHlt | NoBusCycle | BusFault | StartFailure | ExecutionDeadline

  datatype ClockChoice = AutoClock | FreeClock | SteppedClock | StoppedClock

  datatype Executor = Executor(
    active: bool, idleArmed: bool, idle: bool, clock: ClockChoice, reason: Reason,
    timeoutMs: u32, startedUs: nat, deadlineUs: nat, starvationUs: nat,
    tick: Tick, stats: Stats, console: Console, diagWorkload: u32, diagBoot: u32)

  const IDLE_EXECUTOR: Executor :=
    Executor(false, false, false, StoppedClock, NoReason, 0, 0, 0, 0, Fresh(false), NO_STATS, BLANK, 0, 0)

  /** The whole machine; `log` records what the run has done. */
  datatype Machine = Machine(
    site: Site, exec: Executor, pins: Pins, busActive: bool, bootId: u32, prepared: bool, log: Log)

  // ---- starting ---------------------------------------------------------------------------

  /** The 16 bytes at the reset vector: an optional stack, then a far jump. */
  function Handoff(m: Manifest): (s: seq<byte>)
    ensures |s| == 16
  {
    var jump := [0xEA] + Le16(m.entryOffset) + Le16(m.entrySegment);
    if m.stackSegment == 0 && m.stackOffset == 0 then jump + Repeat(0x90, 11)
    else [0xFA, 0xB8] + Le16(m.stackSegment) + [0x8E, 0xD0, 0xBC] + Le16(m.stackOffset) + jump + Repeat(0x90, 2)
  }

  /** How the clock behaves during one start, and how much later its time is read. */
  datatype StartInput = StartInput(clock: Hardware, later: nat)

  datatype Started = Started(machine: Machine, ok: bool)

  /** `prepare_general_workload_bus`. */
  function PrepareBus(s: Machine, h: Hardware): Started {
    var ok := ReachesStepped(s.pins.clock, h);
    var held := s.pins.(reset := true, intr := s.pins.intr && !s.prepared);
    if !ok then Started(s.(pins := Park(held)), false)
    else Started(s.(pins := held.(clock := Stepped, adDriven := false),
                    busActive := s.busActive && !s.prepared, prepared := false), true)
  }

  function StartFailed(s: Machine): Started {
    Started(s.(exec := s.exec.(reason := StartFailure)), false)
  }

  /** A new attempt inherits no result of an earlier one. */
  function Attempt(s: Machine): Machine {
    s.(exec := s.exec.(console := BLANK.(line := s.exec.console.line), reason := NoReason, deadlineUs := 0,
                       stats := NO_STATS, diagWorkload := s.site.manager.workloadId, diagBoot := 0))
  }

  /** Everything between the mailbox reset and the reset sequence. */
  function Armed(s: Machine, store: Store): Machine {
    var boot := NextId(s.bootId);
    s.(site := s.site.(store := store), busActive := true, bootId := boot,
       exec := s.exec.(console := s.exec.console.(line := []), idleArmed := false, idle := false, starvationUs := 0,
                       clock := SteppedClock, active := true, diagBoot := boot))
  }

  function Launched(s: Machine, now: nat): Machine {
    var e := s.exec;
    s.(exec := e.(startedUs := now, tick := PeriodicTick.Armed(e.tick, now),
                  deadlineUs := if e.timeoutMs != 0 then now + 1000 * e.timeoutMs else 0),
       log := Log(0, now, now, 0, None, None))
  }

  /** The second half of a start: mailbox reset, reset sequence, launch. */
  function Boot(s: Machine, input: StartInput): Started {
    var store := InitMailbox(s.site.store);
    if store.None? then StartFailed(s.(pins := Park(s.pins)))
    else
      var released := s.pins.clock.Stepped? && ResetAnswered(input.clock);
      var u := Armed(s, store.value).(pins := AfterReset(s.pins, released));
      if !released then StartFailed(u.(exec := u.exec.(active := false, clock := StoppedClock), busActive := false))
      else Started(Launched(u, s.log.clock + input.later), true)
  }

  function TickReset(s: Machine): Machine {
    s.(exec := s.exec.(tick := Fresh(TickFlag(s.site.manager.manifest.flags))),
       pins := s.pins.(intr := false, faulted := false))
  }

  /** `rp86_workload_executor_start`. */
  function StartGeneral(s: Machine, input: StartInput): Started {
    var a := Attempt(s);
    if FreeRunningFlag(s.site.manager.manifest.flags) then StartFailed(a)
    else
      var p := PrepareBus(a, input.clock);
      if !p.ok then StartFailed(p.machine) else Boot(TickReset(p.machine), input)
  }

  /** `rp86_workload_executor_stop`. */
  function StopGeneral(s: Machine, halt: Hardware): Machine {
    var e := s.exec;
    if !e.active then s.(exec := e.(deadlineUs := 0))
    else
      s.(exec := e.(deadlineUs := 0, reason := if e.reason.NoReason? then StopRequested else e.reason,
                    console := Flush(e.console), idleArmed := false, idle := false, starvationUs := 0,
                    tick := Quiesced(e.tick), clock := StoppedClock, active := false),
         pins := Halted(s.pins.(intr := false), halt), busActive := false)
  }

  // ---- the prepared calculator ------------------------------------------------------------------

  const CALCULATOR: seq<byte> :=
    [0x01, 0xC8, 0xCB, 0x90, 0x29, 0xC8, 0xCB, 0x90, 0xF7, 0xE1, 0xCB, 0x90, 0xF7, 0xF1, 0xCB, 0x90]

  /** `calculator_workload_valid`. */
  predicate IsCalculator(site: Site) {
    var m := site.manager;
    && (m.state.Staged? || m.state.Stopped? || m.state.Running?)
    && m.manifest.imageSize == 16 && Linear(m.manifest.entrySegment, m.manifest.entryOffset) == m.manifest.loadAddress
    && Read(site.store, m.manifest.loadAddress, 16) == Some(CALCULATOR)
  }

  /** How a start of the prepared responder ends: refused untouched, parked
      again after a failure (before or after it was booted, and after it was
      activated if only the proof round failed), or live with RESET released. */
  datatype Prepared = Refused | ParkedAgain(booted: bool, activated: bool) | Live(confirmed: bool)

  function StartCalculator(s: Machine, outcome: Prepared): Started {
    match outcome
    case Refused => Started(s, false)
    case ParkedAgain(booted, activated) =>
      Started(s.(pins := Park(s.pins.(intr := false)), busActive := false, prepared := s.prepared || activated,
                 bootId := if booted || activated then NextId(s.bootId) else s.bootId), false)
    case Live(confirmed) =>
      Started(s.(pins := s.pins.(reset := false, intr := false, clock := FreeRunning), busActive := true,
                 bootId := NextId(s.bootId), prepared := true), confirmed)
  }

  // ---- control records ------------------------------------------------------------------------------

  datatype Operation = RunIt | StopIt | RestartIt | StatusIt | UnknownOperation

  datatype ControlInput = ControlInput(start: StartInput, halt: Hardware, prepared: Prepared)

  datatype Controlled = Controlled(machine: Machine, status: u16)

  function WithState(s: Machine, state: State): Machine {
    s.(site := s.site.(manager := s.site.manager.(state := state)))
  }

  /** Start what the manager has set to RUNNING; a start that fails faults it. */
  function StartNow(s: Machine, calculator: bool, input: ControlInput): Controlled {
    var r := if calculator then StartCalculator(s, input.prepared) else StartGeneral(s, input.start);
    if r.ok then Controlled(r.machine, OK) else Controlled(WithState(r.machine, Faulted), BAD_WORKLOAD)
  }

  /** The CONTROL branch of `handle_workload_record`. */
  function Control(s: Machine, op: Operation, id: u32, input: ControlInput): Controlled {
    var m := s.site.manager;
    var calculator := IsCalculator(s.site);
    if op.StatusIt? && (id == 0 || id == m.workloadId) then Controlled(s, OK)
    else if (op.RunIt? || op.RestartIt?) && calculator && s.exec.timeoutMs != 0 then Controlled(s, BAD_STATE)
    else if op.RunIt? then
      if !RunAllowed(m, id) then Controlled(s, BAD_WORKLOAD)
      else StartNow(WithState(s, Running), calculator, input)
    else if op.StopIt? then
      if !StopAllowed(m, id) then Controlled(s, BAD_STATE)
      else
        var t := WithState(s, State.Stopped);
        if s.exec.active then Controlled(StopGeneral(t, input.halt), OK)
        else if calculator then Controlled(t.(pins := Park(t.pins.(intr := false)), busActive := false), OK)
        else Controlled(t, OK)
    else if op.RestartIt? then
      if !RestartAllowed(m, id) then Controlled(s, BAD_WORKLOAD)
      else
        var t := WithState(s, Running);
        StartNow(if s.exec.active then StopGeneral(t, input.halt) else t, calculator, input)
    else Controlled(s, BAD_WORKLOAD)
  }

  // ---- upload and memory records ----------------------------------------------------------------------

  /** `rp86_workload_executor_stage`. */
  function Stage(s: Machine): Machine {
    var flags := s.site.manager.manifest.flags;
    s.(exec := s.exec.(diagWorkload := 0, diagBoot := 0, stats := NO_STATS, idle := false, reason := NoReason,
                       console := BLANK.(line := s.exec.console.line),
                       clock := if FreeRunningFlag(flags) then FreeClock
                                else if SteppedFlag(flags) then SteppedClock else AutoClock))
  }

  /** An upload record; a new transfer retires the diagnostics of the last run. */
  function Upload(s: Machine, r: Message): Machine {
    var h := HandleUpload(s.site, r);
    var t := s.(site := h.site);
    if h.status != OK then t
    else if r.kind == WORKLOAD_BEGIN then t.(exec := t.exec.(diagWorkload := 0, diagBoot := 0))
    else if r.kind == WORKLOAD_COMMIT then Stage(t)
    else t
  }

  function HostMemory(s: Machine, r: Message): Machine {
    s.(site := s.site.(store := Dispatch(s.site.store, s.site.manager.state.Running?, r).store))
  }

  // ---- the timeout request -----------------------------------------------------------------------------

  /** Whether a SET is applied, and with which value. */
  function TimeoutRequested(r: Message): Option<u32> {
    if |r.payload| == 8 && Load32(r.payload, 0) == 1 then Some(Load32(r.payload, 4)) else None
  }

  function TimeoutRefusal(s: Machine, r: Message): u16 {
    if r.version != VERSION then BAD_VERSION
    else if |r.payload| != 8 || r.status != OK || r.flags != 0 then BAD_LENGTH
    else
      var operation, value := Load32(r.payload, 0), Load32(r.payload, 4);
      if operation > 1 || value > TIMEOUT_MAX_MS || (operation == 0 && value != 0) then BAD_LENGTH
      else if operation == 1 && value != 0 && s.site.manager.state.Running? && !s.exec.active then BAD_STATE
      else OK
  }

  /** The setting and the deadline after an accepted request. */
  function TimeoutApplied(s: Machine, r: Message): Machine {
    var value := TimeoutRequested(r);
    if value.None? then s
    else
      var e := s.exec;
      s.(exec := e.(timeoutMs := value.value,
                    deadlineUs := if value.value != 0 && e.active && !e.idle
                                  then e.startedUs + 1000 * value.value else 0))
  }

  // ---- one service call -----------------------------------------------------------------------------------

  const PORT_PIC: nat := 0x20
  const PORT_STATUS: nat := 0xE0
  const PORT_TX: nat := 0xE2
  const PORT_CONTROL: nat := 0xE6
  const PORT_RESULT: nat := 0xE8
  const PORT_DIAGNOSTIC: nat := 0xE9
  const PORT_CLOCK: nat := 0xEA

  function PortOf(e: BusEvent): nat
    requires e.Cycle?
  {
    e.address % W16
  }

  function LaneValue(e: BusEvent): u16
    requires e.Cycle?
  {
    if LanesOf(e).High? then e.data / 256 else e.data
  }

  predicate IsEoi(e: BusEvent)
    requires e.Cycle?
  {
    PortOf(e) == PORT_PIC && LaneValue(e) % 256 == 0x20
  }

  predicate IsIdlePrepare(e: BusEvent)
    requires e.Cycle?
  {
    PortOf(e) == PORT_CONTROL && LaneValue(e) == 1
  }

  /** Whether `io_write` takes a write to this port. */
  predicate WriteTaken(e: BusEvent, clock: ClockChoice)
    requires e.Cycle?
  {
    var port := PortOf(e);
    if port == PORT_CLOCK then LaneValue(e) == 2 && clock.SteppedClock?
    else port in {PORT_DIAGNOSTIC, PORT_RESULT, PORT_STATUS, PORT_TX, PORT_CONTROL, PORT_PIC}
  }

  /** What the callbacks answer, each only where the controller asks it. */
  function AnswersTo(x: Executor, e: BusEvent): Answers {
    if !e.Cycle? then NO_ANSWERS
    else
      match TypeOf(e)
      case InterruptAck => NO_ANSWERS.(ack := Acknowledged(x.tick))
      case IoRead => NO_ANSWERS.(read := if PortOf(e) == PORT_STATUS then Some(1) else None)
      case IoWrite => NO_ANSWERS.(write := e.finish.Samples? && WriteTaken(e, x.clock))
      case _ => NO_ANSWERS
  }

  const NO_ANSWERS: Answers := Answers(None, false, None)

  /** The vector an acknowledge cycle is given, if it is answered at all. */
  function Acknowledged(t: Tick): Option<Vector> {
    if !Acceptable(t) then None else Some(Vector(t.ackPhase == 1, if t.ackPhase == 1 then TICK_VECTOR else 0))
  }

  /** What the callbacks of a cycle do to the executor: acknowledge, restore
      fence, idle preparation, console. */
  datatype Called = Called(tick: Tick, log: Log, idleArmed: bool, console: Console)

  function Callbacks(x: Executor, log: Log, e: BusEvent, now: nat): Called {
    var same := Called(x.tick, log, x.idleArmed, x.console);
    if !e.Cycle? then same
    else if TypeOf(e).InterruptAck? then
      if Acceptable(x.tick) then same.(tick := Acknowledge(x.tick)) else same
    else if TypeOf(e).IoWrite? && e.finish.Samples? then
      if PortOf(e) == PORT_DIAGNOSTIC then same.(console := Print(x.console, LaneValue(e) % 256))
      else if IsEoi(e) then
        var w := Restore(Watched(x.tick, log), now);
        same.(tick := w.tick, log := w.log)
      else if IsIdlePrepare(e) then same.(idleArmed := true, tick := IdlePrepared(x.tick))
      else same
    else same
  }

  /** The INTR line follows the request flag of the tick source. */
  function LineAfter(before: Tick, after: Tick, line: bool): bool {
    if after.asserted != before.asserted || (before.enabled && !after.enabled) then after.asserted else line
  }

  /** `update_periodic_tick`, before the bus cycle. */
  function PollStep(s: Machine, now: nat): Machine {
    if s.exec.idleArmed then s
    else
      var w := Poll(Watched(s.exec.tick, s.log), now);
      s.(exec := s.exec.(tick := w.tick), log := w.log,
         pins := s.pins.(intr := LineAfter(s.exec.tick, w.tick, s.pins.intr)))
  }

  datatype Cycled = Cycled(machine: Machine, completed: bool)

  function ProcessorMemory(s: Site): Memory {
    Memory(s.store.bytes, s.store.base, Handoff(s.manager.manifest), RESET_BASE)
  }

  /** The callback of a cycle, if it has one. */
  function CallStep(s: Machine, e: BusEvent, now: nat): Machine {
    var c := Callbacks(s.exec, s.log, e, now);
    s.(exec := s.exec.(tick := c.tick, idleArmed := c.idleArmed, console := c.console), log := c.log,
       pins := s.pins.(intr := LineAfter(s.exec.tick, c.tick, s.pins.intr)))
  }

  /** What serving the cycle leaves in memory, statistics and pins. */
  function SettleStep(s: Machine, served: Served): Cycled {
    Cycled(
      s.(site := s.site.(store := s.site.store.(bytes := served.memory.ram)),
         exec := s.exec.(stats := served.stats),
         pins := if served.stats.clockFailure then Park(s.pins).(faulted := true) else s.pins,
         log := if served.completed then s.log.(cycles := s.log.cycles + 1) else s.log),
      served.completed)
  }

  /** One bus cycle against memory and the callbacks. */
  function CycleStep(s: Machine, e: BusEvent, now: nat): Cycled {
    SettleStep(CallStep(s, e, now), Serve(ProcessorMemory(s.site), s.exec.stats, e, AnswersTo(s.exec, e)))
  }

  predicate ImmediateFault(t: Stats) {
    t.unmapped || t.invalidLane || t.padMismatch || t.clockFailure || t.ackFlag
  }

  /** The armed halt indication: the processor has gone quiet after IDLE_PREPARE. */
  predicate HaltIndication(x: Executor) {
    && x.idleArmed && !x.stats.padMismatch && !x.stats.clockFailure && !x.stats.ackFlag
    && (x.stats.noCycle || x.stats.unmapped || x.stats.invalidLane)
  }

  function Ended(s: Machine, reason: Reason, state: State, halt: Hardware): Machine {
    WithState(StopGeneral(s.(exec := s.exec.(reason := reason)), halt), state)
  }

  function Halt(s: Machine, halt: Hardware): Machine {
    var t := s.(exec := s.exec.(idleArmed := false));
    if !CompleteAllowed(t.site.manager, t.site.manager.workloadId) then WithState(StopGeneral(t, halt), Faulted)
    else
      WithState(t.(exec := t.exec.(idle := true, deadlineUs := 0, reason := NativeHlt, starvationUs := 0,
                                   stats := t.exec.stats.(unmapped := false, invalidLane := false, noCycle := false))),
                Completed)
  }

  /** What a cycle that did not complete leads to. */
  function Unfinished(s: Machine, now: nat, halt: Hardware): Machine {
    var x := s.exec;
    if HaltIndication(x) then Halt(s, halt)
    else if x.stats.noCycle && !ImmediateFault(x.stats) then
      var since := if x.starvationUs == 0 then now else x.starvationUs;
      var t := s.(exec := x.(starvationUs := since), log := s.log.(clock := now));
      if now - since < STARVATION_US then t else Ended(t, NoBusCycle, TimedOut, halt)
    else
      var t := s.(exec := x.(starvationUs := 0));
      if !ImmediateFault(x.stats) then t else Ended(t, BusFault, Faulted, halt)
  }

  /** The bus event and how much later each of the four clock readings is. */
  datatype ServiceInput = ServiceInput(event: BusEvent, check: nat, poll: nat, io: nat, starve: nat, halt: Hardware)

  predicate Serviceable(s: Machine) { s.exec.active && s.exec.clock.SteppedClock? && !s.exec.idle }

  predicate DeadlineSeen(s: Machine, now: nat) { s.exec.deadlineUs != 0 && now >= s.exec.deadlineUs }

  /** The poll and the bus cycle of a service call. */
  function AtVerdict(s: Machine, input: ServiceInput): Cycled {
    var now := s.log.clock + input.check;
    var u := PollStep(s.(log := s.log.(clock := now)), now + input.poll);
    CycleStep(u, input.event, u.log.clock + input.io)
  }

  /** `rp86_workload_executor_service`. */
  function Service(s: Machine, input: ServiceInput): Machine {
    var now := s.log.clock + input.check;
    if !Serviceable(s) then s
    else if DeadlineSeen(s, now)
    then Ended(s.(log := s.log.(clock := now)), ExecutionDeadline, TimedOut, input.halt)
    else
      var c := AtVerdict(s, input);
      if c.completed then c.machine.(exec := c.machine.exec.(starvationUs := 0))
      else Unfinished(c.machine, c.machine.log.clock + input.starve, input.halt)
  }

  // ---- the invariant ----------------------------------------------------------------------------------------

  /** What holds while the general executor owns the processor. */
  ghost predicate Alive(s: Machine) {
    var e := s.exec;
    && Busy(s.site.manager) && s.site.manager.workloadId != 0
    && e.clock.SteppedClock? && e.diagBoot != 0 && s.busActive
    && e.diagWorkload == s.site.manager.workloadId && e.reason == (if e.idle then NativeHlt else NoReason)
    && !s.pins.adDriven && s.pins.intr == e.tick.asserted
    && e.stats.counters.cycles == Wrap32(s.log.cycles)
    && s.log.started == e.startedUs <= s.log.clock
    && (e.idleArmed ==> !e.tick.enabled) && (e.tick.enabled ==> e.tick.nextUs != 0)
    && WatchedInv(Watched(e.tick, s.log))
  }

  ghost predicate StatsInv(t: Stats) { Balanced(t.counters) && t.lastAddress < 0x10_0000 }

  /** An execution limit is armed exactly while it can expire. */
  function Deadline(e: Executor): nat {
    if e.active && !e.idle && e.timeoutMs != 0 then e.startedUs + 1000 * e.timeoutMs else 0
  }

  ghost predicate SiteInv(site: Site) {
    && site.store.available && site.store.base == 0 && |site.store.bytes| == 0x40000
    && (!site.manager.state.Empty? ==> FirmwareValid(site.manager.manifest, site.store))
  }

  ghost predicate Inv(s: Machine) {
    var e, state := s.exec, s.site.manager.state;
    && (e.active ==> Alive(s))
    && (e.idle <==> e.active && state.Completed?) && (state.Completed? ==> e.active)
    && e.deadlineUs == Deadline(e) && e.timeoutMs <= TIMEOUT_MAX_MS
    && Conserved(e.tick) && StatsInv(e.stats) && SiteInv(s.site)
  }

  /** The machine after power-up, with any pins and any memory. */
  ghost predicate Initial(s: Machine) {
    s.exec == IDLE_EXECUTOR && s.site.manager == INITIAL && s.site.store.available
    && s.site.store.base == 0 && |s.site.store.bytes| == 0x40000
  }

  lemma InitialInv(s: Machine)
    requires Initial(s)
    ensures Inv(s)
  {
    FreshConserved(false);
  }

  // ---- stopping and starting keep it ------------------------------------------------------------------------

  lemma QuiescedConserved(t: Tick)
    requires Conserved(t)
    ensures Conserved(Quiesced(t))
  {
  }

  /** Between a stop and whatever follows it: everything but the lifecycle. */
  ghost predicate Resting(s: Machine) {
    var e := s.exec;
    && !e.active && !e.idle && e.deadlineUs == 0 && e.timeoutMs <= TIMEOUT_MAX_MS
    && Conserved(e.tick) && StatsInv(e.stats) && SiteInv(s.site)
  }

  lemma StopRests(s: Machine, halt: Hardware)
    requires s.exec.active && s.exec.timeoutMs <= TIMEOUT_MAX_MS
    requires Conserved(s.exec.tick) && StatsInv(s.exec.stats) && SiteInv(s.site)
    ensures Resting(StopGeneral(s, halt)) && Safe(StopGeneral(s, halt).pins)
  {
    QuiescedConserved(s.exec.tick);
    hide Conserved; hide StatsInv; hide SiteInv; hide Quiesced;
  }

  lemma RestingInv(s: Machine)
    requires Resting(s) && !s.site.manager.state.Completed?
    ensures Inv(s)
  {
  }

  lemma WithStateSite(s: Machine, state: State)
    requires SiteInv(s.site) && !s.site.manager.state.Empty?
    ensures SiteInv(WithState(s, state).site)
  {
    hide FirmwareValid;
  }

  lemma MailboxShape(b: Store)
    ensures InitMailbox(b).Some? ==> SameShape(b, InitMailbox(b).value)
  {
  }

  lemma BootKeeps(s: Machine, input: StartInput)
    requires Resting(s) && s.site.manager.state.Running? && s.site.manager.workloadId != 0
    requires s.exec.tick == Fresh(TickFlag(s.site.manager.manifest.flags)) && s.exec.stats == NO_STATS
    requires !s.pins.intr && !s.pins.adDriven && s.exec.reason.NoReason? && s.exec.diagWorkload == s.site.manager.workloadId
    ensures var r := Boot(s, input);
            && r.machine.site.manager == s.site.manager
            && (r.ok ==> Inv(r.machine) && r.machine.exec.active)
            && (!r.ok ==> Resting(r.machine) && Safe(r.machine.pins))
  {
    hide FirmwareValid; hide InitMailbox; hide TickFlag; hide Balanced; hide WatchedInv; hide StatsInv; hide Conserved;
    BegunInv(TickFlag(s.site.manager.manifest.flags), s.log.clock + input.later);
    MailboxShape(s.site.store);
    if InitMailbox(s.site.store).Some? {
      ValidSameShape(s.site.manager.manifest, s.site.store, InitMailbox(s.site.store).value);
    }
  }

  lemma NoStatsInv()
    ensures StatsInv(NO_STATS)
  {
  }

  /** A start either launches the processor with a clean account, or leaves the
      executor at rest; from a safe bus, a failed start leaves it safe. */
  lemma StartKeeps(s: Machine, input: StartInput)
    requires Resting(s) && s.site.manager.state.Running? && s.site.manager.workloadId != 0
    ensures var r := StartGeneral(s, input);
            && r.machine.site.manager == s.site.manager
            && (r.ok ==> Inv(r.machine) && r.machine.exec.active)
            && (!r.ok ==> Resting(r.machine))
            && (!r.ok && Safe(s.pins) ==> Safe(r.machine.pins))
  {
    hide Boot; hide Conserved; hide StatsInv; hide SiteInv; hide Fresh; hide TickFlag; hide Inv;
    FreshConserved(TickFlag(s.site.manager.manifest.flags));
    NoStatsInv();
    if !FreeRunningFlag(s.site.manager.manifest.flags) && PrepareBus(Attempt(s), input.clock).ok {
      BootKeeps(TickReset(PrepareBus(Attempt(s), input.clock).machine), input);
    }
  }

  lemma CalculatorKeeps(s: Machine, outcome: Prepared)
    requires Resting(s)
    ensures var r := StartCalculator(s, outcome);
            && Resting(r.machine) && r.machine.site == s.site
            && (Safe(s.pins) ==> (Safe(r.machine.pins) <==> !outcome.Live?))
  {
    hide Conserved; hide StatsInv; hide SiteInv;
  }

  /** The start that RUN and RESTART share, from a machine at rest. */
  lemma StartNowKeeps(s: Machine, calculator: bool, input: ControlInput)
    requires Resting(s) && s.site.manager.state.Running? && s.site.manager.workloadId != 0
    ensures var r := StartNow(s, calculator, input).machine;
            && Inv(r)
            && (Safe(s.pins) && !r.exec.active ==> (Safe(r.pins) <==> !(calculator && input.prepared.Live?)))
  {
    hide StartGeneral; hide StartCalculator; hide Inv; hide SiteInv;
    if calculator {
      CalculatorKeeps(s, input.prepared);
      var r := StartCalculator(s, input.prepared);
      WithStateSite(r.machine, Faulted);
      RestingInv(if r.ok then r.machine else WithState(r.machine, Faulted));
    } else {
      StartKeeps(s, input.start);
      var r := StartGeneral(s, input.start);
      if !r.ok {
        assert Resting(r.machine);
        WithStateSite(r.machine, Faulted);
        RestingInv(WithState(r.machine, Faulted));
      }
    }
  }

  /** Which control record takes the processor away from the general executor
      and hands it to the prepared calculator in the same step. */
  predicate HandsOver(s: Machine, op: Operation, input: ControlInput) {
    op.RestartIt? && IsCalculator(s.site) && input.prepared.Live?
  }

  lemma ControlKeeps(s: Machine, op: Operation, id: u32, input: ControlInput)
    requires Inv(s)
    ensures var r := Control(s, op, id, input).machine;
            && Inv(r)
            && (s.exec.active && !r.exec.active ==> (Safe(r.pins) <==> !HandsOver(s, op, input)))
  {
    hide StartNow; hide IsCalculator; hide StopGeneral; hide SiteInv; hide Conserved; hide StatsInv; hide Alive;
    var calculator := IsCalculator(s.site);
    if op.RunIt? && RunAllowed(s.site.manager, id) && !(calculator && s.exec.timeoutMs != 0) {
      var t := WithState(s, Running);
      NotActive(s);
      WithStateSite(s, Running);
      StartNowKeeps(t, calculator, input);
    } else if op.StopIt? && StopAllowed(s.site.manager, id) {
      var t := WithState(s, State.Stopped);
      WithStateSite(s, State.Stopped);
      if s.exec.active {
        StopRests(t, input.halt);
        StopManager(t, input.halt);
        RestingInv(StopGeneral(t, input.halt));
      }
    } else if op.RestartIt? && RestartAllowed(s.site.manager, id) && !(calculator && s.exec.timeoutMs != 0) {
      var t := WithState(s, Running);
      WithStateSite(s, Running);
      if s.exec.active {
        StopRests(t, input.halt);
        StopManager(t, input.halt);
        StartNowKeeps(StopGeneral(t, input.halt), calculator, input);
      } else {
        StartNowKeeps(t, calculator, input);
      }
    }
  }

  lemma NotActive(s: Machine)
    requires Inv(s) && !Busy(s.site.manager)
    ensures !s.exec.active && !s.exec.idle && s.exec.deadlineUs == 0
  {
  }

  lemma StopManager(s: Machine, halt: Hardware)
    ensures StopGeneral(s, halt).site == s.site && !StopGeneral(s, halt).exec.active
    ensures StopGeneral(s, halt).log == s.log
  {
  }

  // ---- the other records ------------------------------------------------------------------------------------------

  lemma UploadSite(site: Site, r: Message)
    requires SiteInv(site)
    ensures SiteInv(HandleUpload(site, r).site)
    ensures Busy(site.manager) ==> HandleUpload(site, r).site == site && HandleUpload(site, r).status != OK
    ensures !Busy(site.manager) ==> !Busy(HandleUpload(site, r).site.manager)
  {
    hide Decode; hide ToWord;
    var m := site.manager;
    if m.state.Receiving? && r.status == OK && r.kind == WORKLOAD_DATA && |r.payload| > 8 {
      var h := HandleData(site, Load32(r.payload, 0), Load32(r.payload, 4), r.payload[8..]);
      ValidSameShape(m.manifest, site.store, h.site.store);
    }
    hide FirmwareValid;
  }

  lemma UploadKeeps(s: Machine, r: Message)
    requires Inv(s)
    ensures Inv(Upload(s, r)) && Upload(s, r).exec.active == s.exec.active
    ensures s.exec.active ==> Upload(s, r) == s
  {
    UploadSite(s.site, r);
    hide HandleUpload; hide SiteInv; hide Alive; hide Conserved;
    if s.exec.active { AliveBusy(s); } else { assert StatsInv(NO_STATS); }
    hide StatsInv;
  }

  lemma AliveBusy(s: Machine)
    requires Alive(s)
    ensures Busy(s.site.manager) && s.site.manager.workloadId != 0 && s.exec.diagBoot != 0
    ensures s.exec.startedUs <= s.log.clock && s.exec.clock.SteppedClock?
  {
  }

  lemma DispatchShape(b: Store, running: bool, r: Message)
    ensures SameShape(b, Dispatch(b, running, r).store)
  {
  }

  lemma HostMemoryKeeps(s: Machine, r: Message)
    requires Inv(s)
    ensures Inv(HostMemory(s, r))
  {
    DispatchShape(s.site.store, s.site.manager.state.Running?, r);
    ValidSameShape(s.site.manager.manifest, s.site.store, HostMemory(s, r).site.store);
    hide FirmwareValid; hide Dispatch; hide WatchedInv; hide Conserved; hide StatsInv;
  }

  /** The records of the timeout service: refused, or applied and answered. */
  function Timeout(s: Machine, r: Message, later: nat): Machine {
    if TimeoutRefusal(s, r) != OK then s
    else
      var t := TimeoutApplied(s, r);
      t.(log := t.log.(clock := t.log.clock + later))
  }

  lemma LaterClock(w: Watched, now: nat)
    requires WatchedInv(w) && w.log.clock <= now
    ensures WatchedInv(w.(log := w.log.(clock := now)))
  {
    hide Conserved;
  }

  lemma TimeoutKeeps(s: Machine, r: Message, later: nat)
    requires Inv(s)
    ensures Inv(Timeout(s, r, later))
  {
    hide WatchedInv; hide Conserved; hide StatsInv; hide SiteInv; hide Load32;
    if s.exec.active { LaterClock(Watched(s.exec.tick, s.log), s.log.clock + later); }
  }

  // ---- a service call keeps it -------------------------------------------------------------------------------------

  lemma ClockKeeps(s: Machine, now: nat)
    requires Inv(s) && s.log.clock <= now
    ensures Inv(s.(log := s.log.(clock := now)))
  {
    hide WatchedInv; hide Conserved; hide StatsInv; hide SiteInv;
    if s.exec.active { LaterClock(Watched(s.exec.tick, s.log), now); }
  }

  lemma PollLine(t: Tick, now: nat, cycles: u32, line: bool)
    requires line == t.asserted
    ensures LineAfter(t, Update(t, now, cycles), line) == Update(t, now, cycles).asserted
    ensures Update(t, now, cycles).enabled == t.enabled
    ensures t.nextUs != 0 ==> Update(t, now, cycles).nextUs != 0
  {
  }

  lemma PollKeeps(s: Machine, now: nat)
    requires Inv(s) && Serviceable(s) && s.log.clock <= now
    ensures var t := PollStep(s, now);
            Inv(t) && Serviceable(t) && s.log.clock <= t.log.clock && t.site == s.site && t.exec.stats == s.exec.stats
            && t.exec.deadlineUs == s.exec.deadlineUs
  {
    var w := Watched(s.exec.tick, s.log);
    PollInv(w, now);
    PollLine(s.exec.tick, now, Wrap32(s.log.cycles), s.pins.intr);
    WatchedConserved(Poll(w, now));
    hide WatchedInv; hide Conserved; hide StatsInv; hide SiteInv; hide Update; hide Wrap32;
  }

  lemma WatchedConserved(w: Watched)
    requires WatchedInv(w)
    ensures Conserved(w.tick)
  {
  }

  /** The part of the executor that the callbacks touch, kept in order. */
  ghost predicate CallInv(t: Tick, log: Log, idleArmed: bool, line: bool) {
    && WatchedInv(Watched(t, log)) && line == t.asserted
    && (idleArmed ==> !t.enabled) && (t.enabled ==> t.nextUs != 0)
  }

  lemma AcknowledgeCall(t: Tick, log: Log, idleArmed: bool, line: bool)
    requires CallInv(t, log, idleArmed, line) && Acceptable(t)
    ensures CallInv(Acknowledge(t), log, idleArmed, LineAfter(t, Acknowledge(t), line))
  {
    AcknowledgeInv(Watched(t, log));
    hide WatchedInv;
  }

  lemma RestoreCall(t: Tick, log: Log, idleArmed: bool, line: bool, now: nat)
    requires CallInv(t, log, idleArmed, line) && log.clock <= now
    ensures var w := Restore(Watched(t, log), now);
            && CallInv(w.tick, w.log, idleArmed, LineAfter(t, w.tick, line))
            && log.clock <= w.log.clock && w.log.started == log.started && w.log.cycles == log.cycles
  {
    RestoreInv(Watched(t, log), now);
    hide WatchedInv;
  }

  lemma IdleCall(t: Tick, log: Log, idleArmed: bool, line: bool)
    requires CallInv(t, log, idleArmed, line)
    ensures CallInv(IdlePrepared(t), log, true, LineAfter(t, IdlePrepared(t), line))
  {
    QuiescedInv(Watched(t, log));
    hide WatchedInv;
  }

  lemma SameLine(t: Tick, line: bool)
    ensures LineAfter(t, t, line) == line
  {
  }

  lemma CallbacksKeep(x: Executor, log: Log, e: BusEvent, now: nat, line: bool)
    requires CallInv(x.tick, log, x.idleArmed, line) && log.clock <= now
    ensures var c := Callbacks(x, log, e, now);
            && CallInv(c.tick, c.log, c.idleArmed, LineAfter(x.tick, c.tick, line))
            && log.clock <= c.log.clock && c.log.started == log.started && c.log.cycles == log.cycles
  {
    hide CallInv; hide LineAfter; hide TypeOf; hide LanesOf; hide Restore; hide IdlePrepared; hide Acknowledge;
    SameLine(x.tick, line);
    if e.Cycle? {
      if TypeOf(e).InterruptAck? {
        if Acceptable(x.tick) { AcknowledgeCall(x.tick, log, x.idleArmed, line); }
      } else if TypeOf(e).IoWrite? && e.finish.Samples? && PortOf(e) != PORT_DIAGNOSTIC {
        if IsEoi(e) {
          RestoreCall(x.tick, log, x.idleArmed, line, now);
        } else if IsIdlePrepare(e) {
          IdleCall(x.tick, log, x.idleArmed, line);
        }
      }
    }
  }

  lemma CountedCycle(w: Watched)
    requires WatchedInv(w)
    ensures WatchedInv(w.(log := w.log.(cycles := w.log.cycles + 1)))
    ensures Wrap32(Wrap32(w.log.cycles) + 1) == Wrap32(w.log.cycles + 1)
  {
    CycleDoneInv(w);
    Wrap32Add(w.log.cycles, 1);
  }

  /** The site and the statistics after a cycle. */
  lemma CycleSite(s: Machine, e: BusEvent, now: nat)
    requires SiteInv(s.site) && StatsInv(s.exec.stats) && WellFormed(e)
    ensures var c := CycleStep(s, e, now);
            && SiteInv(c.machine.site) && StatsInv(c.machine.exec.stats)
            && c.machine.site.manager == s.site.manager
            && c.machine.exec.stats.counters.cycles
               == if c.completed then Wrap32(s.exec.stats.counters.cycles + 1) else s.exec.stats.counters.cycles
  {
    var memory, io := ProcessorMemory(s.site), AnswersTo(s.exec, e);
    ServeCounts(memory, s.exec.stats, e, io);
    ServeShape(memory, s.exec.stats, e, io);
    ServeAddress(memory, s.exec.stats, e, io);
    if e.Cycle? { CountBalances(s.exec.stats.counters, TypeOf(e)); }
    hide Serve; hide Callbacks; hide AnswersTo; hide TypeOf; hide Balanced;
    ValidSameShape(s.site.manager.manifest, s.site.store, CycleStep(s, e, now).machine.site.store);
    hide FirmwareValid;
  }

  lemma CycleKeeps(s: Machine, e: BusEvent, now: nat)
    requires Inv(s) && Serviceable(s) && s.log.clock <= now && WellFormed(e)
    ensures var c := CycleStep(s, e, now);
            && Inv(c.machine) && Serviceable(c.machine) && c.machine.site.manager == s.site.manager
            && s.log.clock <= c.machine.log.clock && c.machine.exec.deadlineUs == s.exec.deadlineUs
  {
    hide Serve; hide Callbacks; hide AnswersTo; hide ProcessorMemory; hide LineAfter;
    CycleSite(s, e, now);
    CallbacksKeep(s.exec, s.log, e, now, s.pins.intr);
    var called := Callbacks(s.exec, s.log, e, now);
    CountedCycle(Watched(called.tick, called.log));
    WatchedConserved(Watched(called.tick, called.log));
    hide WatchedInv; hide Conserved; hide StatsInv; hide SiteInv; hide Wrap32;
  }

  lemma EndedKeeps(s: Machine, reason: Reason, state: State, halt: Hardware)
    requires Inv(s) && s.exec.active && !state.Completed? && !state.Empty?
    ensures var t := Ended(s, reason, state, halt);
            Inv(t) && !t.exec.active && Safe(t.pins) && t.exec.reason == (if reason.NoReason? then StopRequested else reason)
            && t.site.manager.state == state
  {
    var u := s.(exec := s.exec.(reason := reason));
    StopRests(u, halt);
    StopManager(u, halt);
    AliveBusy(s);
    WithStateSite(StopGeneral(u, halt), state);
    RestingInv(Ended(s, reason, state, halt));
    hide Inv; hide Conserved; hide StatsInv; hide SiteInv; hide Quiesced;
  }

  lemma HaltKeeps(s: Machine, halt: Hardware)
    requires Inv(s) && Serviceable(s)
    ensures Inv(Halt(s, halt)) && Halt(s, halt).exec.active
    ensures CompleteAllowed(s.site.manager, s.site.manager.workloadId)
  {
    AliveBusy(s);
    WithStateSite(s, Completed);
    hide WatchedInv; hide Conserved; hide SiteInv; hide Balanced;
  }

  lemma UnfinishedKeeps(s: Machine, now: nat, halt: Hardware)
    requires Inv(s) && Serviceable(s) && s.log.clock <= now
    ensures Inv(Unfinished(s, now, halt))
    ensures !Unfinished(s, now, halt).exec.active ==> Safe(Unfinished(s, now, halt).pins)
  {
    var x := s.exec;
    if HaltIndication(x) {
      HaltKeeps(s, halt);
    } else if x.stats.noCycle && !ImmediateFault(x.stats) {
      ClockKeeps(s, now);
      var t := s.(exec := x.(starvationUs := if x.starvationUs == 0 then now else x.starvationUs), log := s.log.(clock := now));
      StarvationKeeps(s.(log := s.log.(clock := now)), t.exec.starvationUs);
      EndedKeeps(t, NoBusCycle, TimedOut, halt);
      hide Inv; hide Ended;
    } else {
      StarvationKeeps(s, 0);
      EndedKeeps(s.(exec := x.(starvationUs := 0)), BusFault, Faulted, halt);
      hide Inv; hide Ended;
    }
  }

  lemma StarvationKeeps(s: Machine, since: nat)
    requires Inv(s)
    ensures Inv(s.(exec := s.exec.(starvationUs := since)))
  {
    hide WatchedInv; hide Conserved; hide StatsInv; hide SiteInv;
  }

  lemma VerdictKeeps(s: Machine, input: ServiceInput)
    requires Inv(s) && Serviceable(s) && WellFormed(input.event)
    ensures var c := AtVerdict(s, input);
            Inv(c.machine) && Serviceable(c.machine) && c.machine.site.manager == s.site.manager
  {
    hide Inv; hide PollStep; hide CycleStep;
    var now := s.log.clock + input.check;
    ClockKeeps(s, now);
    PollKeeps(s.(log := s.log.(clock := now)), now + input.poll);
    var u := PollStep(s.(log := s.log.(clock := now)), now + input.poll);
    CycleKeeps(u, input.event, u.log.clock + input.io);
  }

  lemma ServiceKeeps(s: Machine, input: ServiceInput)
    requires Inv(s) && WellFormed(input.event)
    ensures Inv(Service(s, input))
    ensures s.exec.active && !Service(s, input).exec.active ==> Safe(Service(s, input).pins)
  {
    hide Inv; hide AtVerdict; hide Unfinished; hide Ended;
    if Serviceable(s) {
      var now := s.log.clock + input.check;
      if DeadlineSeen(s, now) {
        ClockKeeps(s, now);
        EndedKeeps(s.(log := s.log.(clock := now)), ExecutionDeadline, TimedOut, input.halt);
      } else {
        VerdictKeeps(s, input);
        var c := AtVerdict(s, input);
        if c.completed {
          StarvationKeeps(c.machine, 0);
        } else {
          UnfinishedKeeps(c.machine, c.machine.log.clock + input.starve, input.halt);
        }
      }
    }
  }
}
