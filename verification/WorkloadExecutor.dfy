/** The general executor as the firmware runs it: one object over the bus, the
    workload manager, the memory service and the bus controller, each of them
    updated in place, and every call tied to its step of the machine. */
module WorkloadExecutor {
  import opened Words
  import opened Protocol
  import opened Backing
  import opened MemoryService
  import opened WorkloadManager
  import opened WorkloadLoader
  import opened PeriodicTick
  import opened LaneBus
  import opened BusController
  import opened ProcessorBus
  import opened NativeOutput
  import opened Supervisor
  import opened HostReplies
  import opened SupervisorRuns

  class GeneralExecutor {
    const loader: Loader
    const port: MemoryPort
    const controller: Controller
    const bus: Bus
    var exec: Executor
    var busActive: bool
    var bootId: u32
    var prepared: bool
    var log: Log

    ghost function View(): Machine
      reads this, loader, bus, loader.storage.bytes
    {
      Machine(loader.View(), exec, bus.View(), busActive, bootId, prepared, log)
    }

    /** The parts share one backing, and an execution has its reset vector. */
    ghost predicate Wired()
      reads this, loader, controller
    {
      && port.storage == loader.storage
      && controller.ram == loader.storage.bytes && controller.ramBase == loader.storage.base
      && controller.romBase == RESET_BASE && loader.received <= loader.manifest.imageSize
      && (exec.active ==> controller.rom == Handoff(loader.manifest))
    }

    constructor (bytes: array<byte>, pins: Pins, prepared: bool)
      requires bytes.Length == 0x40000
      ensures Wired() && Initial(View()) && loader.storage.bytes == bytes && View().pins == pins
    {
      var storage := new Storage(bytes, 0);
      loader := new Loader(storage);
      port := new MemoryPort(storage);
      controller := new Controller(bytes, 0, [], RESET_BASE);
      bus := new Bus(pins);
      exec := IDLE_EXECUTOR;
      busActive, bootId, this.prepared, log := false, 0, prepared, Log(0, 0, 0, 0, None, None);
    }

    // ---- the tick source --------------------------------------------------------------------

    /** `update_periodic_tick` at an instant. */
    method UpdatePeriodicTick(now: nat)
      requires exec.stats.counters.cycles == Wrap32(log.cycles)
      modifies this`exec, this`log, bus
      ensures View() == PollStep(old(View()), now)
    {
      hide Generate; hide Wrap32; hide CycleReached;
      if exec.idleArmed { return; }
      var t := exec.tick;
      log := log.(clock := now,
                  periods := if t.enabled && t.nextUs != 0 && log.started <= now
                             then (now - log.started) / PERIOD_US else log.periods);
      if !t.enabled || t.nextUs == 0 { return; }
      GenerateLine(t, now);
      t := GenerateTicks(t, now);
      var timeRecovered := t.notBeforeUs == 0 || now >= t.notBeforeUs;
      var progressRecovered := CycleReached(exec.stats.counters.cycles, t.notBeforeCycle);
      if t.pending && !t.asserted && t.ackPhase == 0 && !t.inService && timeRecovered && progressRecovered {
        bus.SetIntr(true);
        t := t.(asserted := true);
      }
      exec := exec.(tick := t);
    }

    /** The periods that have expired, and where each of them goes. */
    method GenerateTicks(before: Tick, now: nat) returns (t: Tick)
      ensures t == Generate(before, now)
    {
      t := before;
      if now < t.nextUs { return; }
      var elapsed := 1 + (now - t.nextUs) / PERIOD_US;
      t := t.(nextUs := t.nextUs + elapsed * PERIOD_US, generated := Wrap32(t.generated + elapsed));
      if t.ackPhase != 0 || t.inService {
        t := t.(delayed := Wrap32(t.delayed + elapsed), coalesced := Wrap32(t.coalesced + elapsed));
      } else if !t.pending {
        t := t.(pending := true);
        if elapsed > 1 { t := t.(coalesced := Wrap32(t.coalesced + (elapsed - 1))); }
      } else {
        t := t.(coalesced := Wrap32(t.coalesced + elapsed));
      }
    }

    /** `interrupt_ack`: no reply means the acknowledge is not handled. */
    method InterruptAcknowledge() returns (reply: Option<Vector>)
      modifies this`exec, bus
      ensures reply == Acknowledged(old(exec).tick)
      ensures exec == if reply.Some? then old(exec).(tick := Acknowledge(old(exec).tick)) else old(exec)
      ensures bus.View() == old(bus.View()).(intr := LineAfter(old(exec).tick, exec.tick, old(bus.intr)))
    {
      hide Wrap32;
      var t := exec.tick;
      if !t.enabled { return None; }
      if t.ackPhase == 0 {
        if !t.asserted { return None; }
        bus.SetIntr(false);
        exec := exec.(tick := t.(asserted := false, pending := false, ackPhase := 1, delivered := Wrap32(t.delivered + 1)));
        return Some(Vector(false, 0));
      }
      if t.ackPhase == 1 {
        exec := exec.(tick := t.(ackPhase := 0, inService := true, acknowledged := Wrap32(t.acknowledged + 1)));
        return Some(Vector(true, TICK_VECTOR));
      }
      return None;
    }

    /** The end-of-interrupt branch of `io_write`. */
    method EndOfInterrupt(now: nat)
      requires exec.stats.counters.cycles == Wrap32(log.cycles)
      requires exec.tick.asserted ==> exec.tick.ackPhase == 0 && !exec.tick.inService
      modifies this`exec, this`log, bus
      ensures exec == old(exec).(tick := exec.tick)
      ensures Watched(exec.tick, log) == Restore(Watched(old(exec).tick, old(log)), now)
      ensures bus.View() == old(bus.View()).(intr := LineAfter(old(exec).tick, exec.tick, old(bus.intr)))
    {
      hide Wrap32;
      log := log.(clock := now);
      var t := exec.tick;
      if !t.enabled { return; }
      log := log.(fence := Some(log.cycles), eoiAt := if t.inService then Some(now) else log.eoiAt);
      if !t.inService && t.ackPhase == 0 && t.asserted {
        bus.SetIntr(false);
        t := t.(asserted := false);
      }
      if t.inService {
        t := t.(inService := false, notBeforeUs := now + PERIOD_US, eoi := Wrap32(t.eoi + 1));
      }
      exec := exec.(tick := t.(notBeforeCycle := Wrap32(exec.stats.counters.cycles + RECOVERY_CYCLES + 1)));
    }

    /** The terminal idle branch of `io_write`. */
    method IdlePrepare()
      requires exec.tick.asserted ==> exec.tick.enabled
      modifies this`exec, bus
      ensures exec == old(exec).(idleArmed := true, tick := IdlePrepared(old(exec).tick))
      ensures bus.View() == old(bus.View()).(intr := LineAfter(old(exec).tick, exec.tick, old(bus.intr)))
    {
      exec := exec.(idleArmed := true);
      if exec.tick.enabled {
        bus.SetIntr(false);
        exec := exec.(tick := exec.tick.(enabled := false, pending := false, inService := false, asserted := false,
                                         ackPhase := 0, notBeforeUs := 0, notBeforeCycle := 0));
      }
    }

    /** `io_write`: whether the port takes the word. */
    method IoWrite(e: BusEvent, now: nat) returns (taken: bool)
      requires e.Cycle? && TypeOf(e).IoWrite? && e.finish.Samples?
      requires exec.stats.counters.cycles == Wrap32(log.cycles)
      requires exec.tick.asserted ==> exec.tick.enabled && exec.tick.ackPhase == 0 && !exec.tick.inService
      modifies this`exec, this`log, bus
      ensures taken == WriteTaken(e, old(exec).clock)
      ensures var c := Callbacks(old(exec), old(log), e, now);
              && exec == old(exec).(tick := c.tick, idleArmed := c.idleArmed, console := c.console) && log == c.log
      ensures bus.View() == old(bus.View()).(intr := LineAfter(old(exec).tick, exec.tick, old(bus.intr)))
    {
      hide Restore; hide IdlePrepared; hide Print; hide TypeOf; hide LanesOf; hide LineAfter; hide Wrap32;
      SameLine(exec.tick, bus.intr);
      var number, value := PortOf(e), LaneValue(e);
      if number == PORT_DIAGNOSTIC {
        exec := exec.(console := Print(exec.console, value % 256));
        return true;
      }
      if number == PORT_RESULT { return true; }
      if number == PORT_CLOCK { return value == 2 && exec.clock.SteppedClock?; }
      if number == PORT_PIC && value % 256 == 0x20 {
        EndOfInterrupt(now);
        return true;
      }
      if number == PORT_CONTROL && value == 1 {
        IdlePrepare();
        return true;
      }
      return number == PORT_STATUS || number == PORT_TX || number == PORT_CONTROL || number == PORT_PIC;
    }

    // ---- stop, start, stage --------------------------------------------------------------------

    method Stop(halt: Hardware)
      modifies this`exec, this`busActive, bus
      ensures View() == StopGeneral(old(View()), halt)
    {
      hide Halted; hide Flush;
      exec := exec.(deadlineUs := 0);
      if !exec.active { return; }
      if exec.reason.NoReason? { exec := exec.(reason := StopRequested); }
      bus.SetIntr(false);
      bus.SafeHalt(halt);
      exec := exec.(console := Flush(exec.console));
      busActive := false;
      exec := exec.(idleArmed := false, idle := false, starvationUs := 0);
      exec := exec.(tick := exec.tick.(asserted := false, enabled := false, pending := false, inService := false,
                                       ackPhase := 0, notBeforeUs := 0, notBeforeCycle := 0));
      exec := exec.(clock := StoppedClock, active := false);
    }

    /** `prepare_general_workload_bus`: retire the prepared responder if there is one. */
    method Prepare(h: Hardware) returns (ok: bool)
      modifies this`busActive, this`prepared, bus
      ensures Started(View(), ok) == PrepareBus(old(View()), h)
    {
      if prepared { bus.SetIntr(false); }
      bus.reset := true;
      ok := bus.SetClockMode(Stepped, h);
      if !ok {
        bus.ForceSafeState();
        return;
      }
      if prepared { busActive := false; }
      bus.adDriven := false;
      prepared := false;
    }

    /** A new attempt must not inherit an earlier result. */
    method NewAttempt()
      modifies this`exec
      ensures View() == Attempt(old(View())) && exec.active == old(exec).active
    {
      exec := exec.(console := BLANK.(line := exec.console.line), reason := NoReason);
      exec := exec.(deadlineUs := 0, stats := NO_STATS, diagWorkload := loader.workloadId, diagBoot := 0);
    }

    method ResetTickAttempt()
      modifies this`exec, bus
      ensures View() == TickReset(old(View())) && exec.active == old(exec).active
    {
      hide TickFlag;
      bus.SetIntr(false);
      exec := exec.(tick := Fresh(TickFlag(loader.manifest.flags)));
      bus.faulted := false;
    }

    method FailStart()
      modifies this`exec
      ensures Started(View(), false) == StartFailed(old(View())) && exec.active == old(exec).active
    {
      exec := exec.(reason := StartFailure);
    }

    method Start(input: StartInput) returns (ok: bool)
      requires Wired() && !exec.active
      modifies this, bus, controller, loader.storage.bytes
      ensures Started(View(), ok) == StartGeneral(old(View()), input)
      ensures Wired()
    {
      hide Boot; hide FreeRunningFlag; hide Attempt; hide PrepareBus; hide TickReset; hide StartFailed; hide Handoff;
      var free := FreeRunningFlag(loader.manifest.flags);
      NewAttempt();
      if free {
        FailStart();
        return false;
      }
      ok := Prepare(input.clock);
      if !ok {
        FailStart();
        return;
      }
      ResetTickAttempt();
      ok := BootProcessor(input);
    }

    /** Reset vector, mailbox reset, reset sequence, launch. */
    method BootProcessor(input: StartInput) returns (ok: bool)
      requires Wired()
      modifies this, bus, controller, loader.storage.bytes
      ensures Started(View(), ok) == Boot(old(View()), input)
      ensures Wired()
    {
      hide InitMailbox; hide Launched; hide Park; hide AfterReset; hide NextId; hide Handoff;
      controller.rom := Handoff(loader.manifest);
      ok := port.InitializeMailbox();
      if !ok {
        exec := exec.(reason := StartFailure);
        bus.ForceSafeState();
        return;
      }
      bootId := NextId(bootId);
      exec := exec.(console := exec.console.(line := []), idleArmed := false, idle := false, starvationUs := 0);
      exec := exec.(clock := SteppedClock, active := true, diagBoot := bootId);
      busActive := true;
      ok := bus.ResetSequence(input.clock);
      if !ok {
        exec := exec.(reason := StartFailure, active := false, clock := StoppedClock);
        busActive := false;
        return;
      }
      Launch(log.clock + input.later);
    }

    /** The processor is out of reset: the attempt, the tick source and the deadline start at `now`. */
    method Launch(now: nat)
      modifies this`exec, this`log
      ensures View() == Launched(old(View()), now)
    {
      exec := exec.(startedUs := now);
      if exec.tick.enabled { exec := exec.(tick := exec.tick.(nextUs := now + PERIOD_US)); }
      exec := exec.(deadlineUs := if exec.timeoutMs != 0 then now + 1000 * exec.timeoutMs else 0);
      log := Log(0, now, now, 0, None, None);
    }

    // ---- service -------------------------------------------------------------------------------

    /** Whatever callback this cycle invokes, and what it answers. */
    method CallBack(e: BusEvent, now: nat) returns (io: Answers)
      requires exec.stats.counters.cycles == Wrap32(log.cycles)
      requires exec.tick.asserted ==> exec.tick.enabled && exec.tick.ackPhase == 0 && !exec.tick.inService
      modifies this`exec, this`log, bus
      ensures View() == CallStep(old(View()), e, now)
      ensures io == AnswersTo(old(exec), e)
    {
      hide LineAfter; hide Acknowledge; hide Acceptable; hide TypeOf; hide Wrap32; hide Restore; hide Print; hide IdlePrepared;
      hide WriteTaken; hide Acknowledged;
      SameLine(exec.tick, bus.intr);
      io := NO_ANSWERS;
      if e.Cycle? {
        var kind := TypeOf(e);
        if kind.InterruptAck? {
          AcknowledgedAcceptable(exec.tick);
          var reply := InterruptAcknowledge();
          io := io.(ack := reply);
        } else if kind.IoRead? {
          io := io.(read := if PortOf(e) == PORT_STATUS then Some(1) else None);
        } else if kind.IoWrite? && e.finish.Samples? {
          var taken := IoWrite(e, now);
          io := io.(write := taken);
        }
      }
    }

    /** The cycle itself, on the backing and the statistics. */
    method ServeOn(e: BusEvent, io: Answers) returns (completed: bool)
      requires Wired() && exec.active
      modifies this`exec, this`log, bus, controller, loader.storage.bytes
      ensures var s := old(View());
              Cycled(View(), completed) == SettleStep(s, Serve(ProcessorMemory(s.site), s.exec.stats, e, io))
      ensures Wired() && exec.active
    {
      hide Serve; hide Handoff;
      controller.stats := exec.stats;
      completed := controller.ServiceCycle(e, io);
      exec := exec.(stats := controller.stats);
      if completed { log := log.(cycles := log.cycles + 1); }
      if exec.stats.clockFailure { bus.Step(false); }
    }

    /** One bus cycle: the callback and the service of the cycle. */
    method BusCycle(e: BusEvent, now: nat) returns (completed: bool)
      requires Wired() && exec.active
      requires exec.stats.counters.cycles == Wrap32(log.cycles)
      requires exec.tick.asserted ==> exec.tick.enabled && exec.tick.ackPhase == 0 && !exec.tick.inService
      modifies this`exec, this`log, bus, controller, loader.storage.bytes
      ensures Cycled(View(), completed) == CycleStep(old(View()), e, now)
      ensures Wired() && exec.active
    {
      hide Serve; hide CallStep; hide AnswersTo; hide ProcessorMemory; hide Wrap32; hide SettleStep; hide Handoff;
      CallFrame(View(), e, now);
      var io := CallBack(e, now);
      completed := ServeOn(e, io);
    }

    method End(why: Reason, state: State, halt: Hardware)
      modifies this`exec, this`busActive, bus, loader`state
      ensures View() == Ended(old(View()), why, state, halt)
    {
      hide StopGeneral;
      StopManager(View().(exec := exec.(reason := why)), halt);
      exec := exec.(reason := why);
      Stop(halt);
      loader.state := state;
    }

    /** The armed halt indication. */
    method AcceptHalt(halt: Hardware)
      modifies this`exec, this`busActive, bus, loader`state
      ensures View() == Halt(old(View()), halt)
    {
      hide StopGeneral;
      exec := exec.(idleArmed := false);
      var completed := loader.CompleteWorkload(loader.workloadId);
      if !completed {
        StopManager(View(), halt);
        Stop(halt);
        loader.state := Faulted;
        return;
      }
      exec := exec.(idle := true, deadlineUs := 0, reason := NativeHlt, starvationUs := 0);
      exec := exec.(stats := exec.stats.(unmapped := false, invalidLane := false, noCycle := false));
    }

    method Unanswered(now: nat, halt: Hardware)
      modifies this`exec, this`busActive, this`log, bus, loader`state
      ensures View() == Unfinished(old(View()), now, halt)
    {
      hide Halt; hide Ended;
      var t := exec.stats;
      if exec.idleArmed && !t.padMismatch && !t.clockFailure && !t.ackFlag && (t.noCycle || t.unmapped || t.invalidLane) {
        AcceptHalt(halt);
        return;
      }
      var immediate := t.unmapped || t.invalidLane || t.padMismatch || t.clockFailure || t.ackFlag;
      if t.noCycle && !immediate {
        log := log.(clock := now);
        if exec.starvationUs == 0 { exec := exec.(starvationUs := now); }
        if now - exec.starvationUs < STARVATION_US { return; }
        End(NoBusCycle, TimedOut, halt);
        return;
      }
      exec := exec.(starvationUs := 0);
      if !immediate { return; }
      End(BusFault, Faulted, halt);
    }

    /** `rp86_workload_executor_service`, in any state the machine can reach. */
    method ServiceOnce(input: ServiceInput)
      requires Wired() && Inv(View())
      modifies this, bus, controller, loader`state, loader.storage.bytes
      ensures View() == Service(old(View()), input)
      ensures Wired()
    {
      hide PollStep; hide CycleStep; hide Unfinished; hide Ended; hide Inv; hide Handoff; hide Wrap32;
      if !exec.active || !exec.clock.SteppedClock? || exec.idle { return; }
      var now := log.clock + input.check;
      log := log.(clock := now);
      if exec.deadlineUs != 0 && now >= exec.deadlineUs {
        EndedInactive(View(), ExecutionDeadline, TimedOut, input.halt);
        End(ExecutionDeadline, TimedOut, input.halt);
        return;
      }
      ClockKeeps(old(View()), now);
      TickReady(View());
      PollKeeps(View(), now + input.poll);
      PollFrame(View(), now + input.poll);
      UpdatePeriodicTick(now + input.poll);
      TickReady(View());
      var completed := BusCycle(input.event, log.clock + input.io);
      if completed {
        exec := exec.(starvationUs := 0);
        return;
      }
      Unanswered(log.clock + input.starve, input.halt);
    }

    // ---- records -------------------------------------------------------------------------------

    method TimeoutRequest(r: Message, later: nat) returns (reply: Message)
      modifies this`exec, this`log
      ensures View() == Timeout(old(View()), r, later) && exec.active == old(exec).active
      ensures reply == TimeoutReply(old(View()), r, later)
    {
      hide PackWords; hide Load32;
      if r.version != VERSION { return Reply(r, TIMEOUT_RESULT, BAD_VERSION, []); }
      if |r.payload| != 8 || r.status != OK || r.flags != 0 { return Reply(r, TIMEOUT_RESULT, BAD_LENGTH, []); }
      var operation, value := Load32(r.payload, 0), Load32(r.payload, 4);
      if operation > 1 || value > TIMEOUT_MAX_MS || (operation == 0 && value != 0) {
        return Reply(r, TIMEOUT_RESULT, BAD_LENGTH, []);
      }
      if operation == 1 {
        if value != 0 && loader.state.Running? && !exec.active { return Reply(r, TIMEOUT_RESULT, BAD_STATE, []); }
        exec := exec.(timeoutMs := value,
                      deadlineUs := if value != 0 && exec.active && !exec.idle then exec.startedUs + 1000 * value else 0);
      }
      var now := log.clock + later;
      log := log.(clock := now);
      var remaining := if exec.deadlineUs > now then (exec.deadlineUs - now + 999) / 1000 else 0;
      return Reply(r, TIMEOUT_RESULT, OK,
                   PackWords([exec.timeoutMs, Wrap32(remaining), loader.workloadId, exec.diagBoot,
                              if exec.deadlineUs != 0 then 1 else 0, 0, 0, 0, 0, 0, 0, 0, 0]));
    }

    /** `calculator_workload_valid`, on the bytes in the backing. */
    method CalculatorStaged() returns (valid: bool)
      ensures valid == IsCalculator(View().site)
    {
      hide Linear;
      if !loader.state.Staged? && !loader.state.Stopped? && !loader.state.Running? { return false; }
      if loader.manifest.imageSize != 16
         || Linear(loader.manifest.entrySegment, loader.manifest.entryOffset) != loader.manifest.loadAddress { return false; }
      var image := loader.storage.ReadRange(loader.manifest.loadAddress, 16);
      return image.Some? && image.value == CALCULATOR;
    }

    /** The shared tail of RUN and RESTART. */
    method StartWorkload(calculator: bool, input: ControlInput) returns (status: u16)
      requires Wired() && !exec.active
      modifies this, bus, controller, loader`state, loader.storage.bytes
      ensures Controlled(View(), status) == StartNow(old(View()), calculator, input)
      ensures Wired()
    {
      hide StartGeneral; hide StartCalculator; hide Handoff;
      var ok;
      if calculator { ok := StartPrepared(input.prepared); } else { ok := Start(input.start); }
      if !ok { loader.state := Faulted; }
      return if ok then OK else BAD_WORKLOAD;
    }

    /** The prepared responder, as far as it touches this machine. */
    method StartPrepared(outcome: Prepared) returns (ok: bool)
      modifies this`busActive, this`bootId, this`prepared, bus
      ensures Started(View(), ok) == StartCalculator(old(View()), outcome)
    {
      match outcome
      case Refused => return false;
      case ParkedAgain(booted, activated) =>
        if booted || activated { bootId := NextId(bootId); }
        if activated { prepared := true; }
        ParkProcessor();
        return false;
      case Live(confirmed) =>
        bus.SetIntr(false);
        bus.reset, bus.clock := false, FreeRunning;
        busActive, prepared := true, true;
        bootId := NextId(bootId);
        return confirmed;
    }

    /** `park_physical_processor`. */
    method ParkProcessor()
      modifies this`busActive, bus
      ensures !busActive && bus.View() == Park(old(bus.View()).(intr := false))
    {
      bus.SetIntr(false);
      busActive := false;
      bus.ForceSafeState();
    }

    /** The CONTROL branch of `handle_workload_record`. */
    method HandleControl(op: Operation, id: u32, input: ControlInput) returns (status: u16)
      requires Wired() && Inv(View())
      modifies this, bus, controller, loader`state, loader.storage.bytes
      ensures Controlled(View(), status) == Control(old(View()), op, id, input)
      ensures Wired()
    {
      hide StartNow; hide StopGeneral; hide IsCalculator; hide Handoff; hide Inv; hide Park;
      hide RunAllowed; hide StopAllowed; hide RestartAllowed;
      var calculator := CalculatorStaged();
      if op.StatusIt? && (id == 0 || id == loader.workloadId) { return OK; }
      if (op.RunIt? || op.RestartIt?) && calculator && exec.timeoutMs != 0 { return BAD_STATE; }
      match op {
        case RunIt =>
          if exec.active { ActiveBusy(View()); }
          var ran := loader.RunWorkload(id);
          if !ran { return BAD_WORKLOAD; }
          status := StartWorkload(calculator, input);
        case StopIt =>
          var stopped := loader.StopWorkload(id);
          if !stopped { return BAD_STATE; }
          StopManager(View(), input.halt);
          if exec.active {
            Stop(input.halt);
          } else if calculator {
            ParkProcessor();
          }
          status := OK;
        case RestartIt =>
          var restarted := loader.RestartWorkload(id);
          if !restarted { return BAD_WORKLOAD; }
          StopManager(View(), input.halt);
          if exec.active { Stop(input.halt); }
          status := StartWorkload(calculator, input);
        case _ =>
          status := BAD_WORKLOAD;
      }
    }

    /** An upload record, and what it retires or stages. */
    method HandleUploadRecord(r: Message) returns (status: u16)
      requires Wired() && Inv(View())
      modifies this`exec, loader, loader.storage.bytes
      ensures View() == Upload(old(View()), r) && status == HandleUpload(old(View()).site, r).status
      ensures Wired()
    {
      hide HandleUpload; hide Handoff; hide Inv;
      if exec.active { UploadKeeps(View(), r); UploadSiteOnly(View(), r); }
      status := loader.HandleUploadRecord(r);
      if status == OK && r.kind == WORKLOAD_BEGIN { exec := exec.(diagWorkload := 0, diagBoot := 0); }
      if status == OK && r.kind == WORKLOAD_COMMIT { StageWorkload(); }
    }

    method StageWorkload()
      modifies this`exec
      ensures View() == Stage(old(View())) && exec.active == old(exec).active
    {
      hide FreeRunningFlag; hide SteppedFlag;
      var flags := loader.manifest.flags;
      exec := exec.(diagWorkload := 0, diagBoot := 0, stats := NO_STATS, idle := false);
      exec := exec.(console := BLANK.(line := exec.console.line), reason := NoReason);
      exec := exec.(clock := if FreeRunningFlag(flags) then FreeClock else if SteppedFlag(flags) then SteppedClock else AutoClock);
    }

    /** A memory record, under the policy of the dispatcher. */
    method HandleMemory(r: Message) returns (reply: Message)
      requires Wired()
      modifies port, loader.storage.bytes
      ensures View() == HostMemory(old(View()), r) && Wired()
      ensures reply == Dispatch(old(View()).site.store, loader.state.Running?, r).reply
    {
      hide Dispatch;
      reply := port.DispatchMemory(loader.state.Running?, r);
    }

    /** The prepared responder drives the pins while the executor is not active. */
    method PreparedMoves(pins: Pins)
      modifies bus
      ensures View() == if !exec.active && prepared then old(View()).(pins := pins) else old(View())
    {
      if !exec.active && prepared {
        bus.reset, bus.intr, bus.adDriven, bus.clock, bus.faulted := pins.reset, pins.intr, pins.adDriven, pins.clock, pins.faulted;
      }
    }

    // ---- whole runs ------------------------------------------------------------------------------

    /** Any step of the machine, taken by the firmware's own code. */
    method Take(step: Step)
      requires Wired() && Inv(View()) && Plausible(step)
      modifies this, bus, controller, port, loader, loader.storage.bytes
      ensures View() == Next(old(View()), step) && Wired() && Inv(View())
    {
      hide Inv; hide Upload; hide Control; hide HostMemory; hide Timeout; hide Service; hide Handoff;
      NextKeeps(View(), step);
      match step
      case UploadStep(r) => var status := HandleUploadRecord(r);
      case ControlStep(op, id, input) => var status := HandleControl(op, id, input);
      case MemoryStep(r) => var reply := HandleMemory(r);
      case TimeoutStep(r, later) => var reply := TimeoutRequest(r, later);
      case ServiceStep(input) => ServiceOnce(input);
      case PreparedRound(pins) => PreparedMoves(pins);
    }

    /** The firmware's objects refine the machine over any run. */
    method Drive(steps: seq<Step>)
      requires Wired() && Inv(View()) && AllPlausible(steps)
      modifies this, bus, controller, port, loader, loader.storage.bytes
      ensures View() == SupervisorRuns.Run(old(View()), steps) && Wired() && Inv(View())
    {
      hide Inv; hide Next; hide Wired;
      for i := 0 to |steps|
        invariant Wired() && Inv(View())
        invariant SupervisorRuns.Run(View(), steps[i..]) == SupervisorRuns.Run(old(View()), steps)
      {
        assert steps[i..][0] == steps[i] && steps[i..][1..] == steps[i + 1..];
        assert Plausible(steps[i]);
        Take(steps[i]);
      }
      assert steps[|steps|..] == [];
    }
  }

  lemma ActiveBusy(s: Machine)
    requires Inv(s) && s.exec.active
    ensures forall id: u32 :: !RunAllowed(s.site.manager, id)
  {
    AliveBusy(s);
  }

  lemma AcknowledgedAcceptable(t: Tick)
    ensures Acknowledged(t).Some? <==> Acceptable(t)
  {
  }

  /** A callback touches neither the site nor the statistics, nor the activity. */
  lemma CallFrame(s: Machine, e: BusEvent, now: nat)
    ensures var t := CallStep(s, e, now);
            t.site == s.site && t.exec.stats == s.exec.stats && t.exec.active == s.exec.active
  {
    hide Callbacks; hide LineAfter;
  }

  lemma PollFrame(s: Machine, now: nat)
    ensures PollStep(s, now).exec.active == s.exec.active && PollStep(s, now).site == s.site
  {
    hide Poll; hide LineAfter;
  }

  lemma EndedInactive(s: Machine, why: Reason, state: State, halt: Hardware)
    ensures !Ended(s, why, state, halt).exec.active
  {
  }

  /** What a serviceable state guarantees the tick code. */
  lemma TickReady(s: Machine)
    requires Inv(s) && s.exec.active
    ensures s.exec.stats.counters.cycles == Wrap32(s.log.cycles)
    ensures s.exec.tick.asserted ==> s.exec.tick.enabled && s.exec.tick.ackPhase == 0 && !s.exec.tick.inService
  {
  }
}
