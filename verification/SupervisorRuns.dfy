/** Whole runs of the supervisor, and what every reachable state guarantees. */
module SupervisorRuns {
  import opened Words
  import opened Protocol
  import opened Backing
  import opened Crc32
  import opened MemoryService
  import opened WorkloadManager
  import opened PeriodicTick
  import opened LaneBus
  import opened ProcessorBus
  import opened Supervisor

  /** Host records, service calls, and the prepared responder moving its own
      pins while the general executor is not active. */
  datatype Step =
    | UploadStep(record: Message)
    | ControlStep(operation: Operation, id: u32, input: ControlInput)
    | MemoryStep(record: Message)
    | TimeoutStep(record: Message, later: nat)
    | ServiceStep(service: ServiceInput)
    | PreparedRound(pins: Pins)

  /** The address bus has twenty lines. */
  predicate Plausible(step: Step) { step.ServiceStep? ==> WellFormed(step.service.event) }

  function Next(s: Machine, step: Step): Machine {
    match step
    case UploadStep(r) => Upload(s, r)
    case ControlStep(op, id, input) => Control(s, op, id, input).machine
    case MemoryStep(r) => HostMemory(s, r)
    case TimeoutStep(r, later) => Timeout(s, r, later)
    case ServiceStep(input) => Service(s, input)
    case PreparedRound(pins) => if !s.exec.active && s.prepared then s.(pins := pins) else s
  }

  function Run(s: Machine, steps: seq<Step>): Machine
    decreases steps
  {
    if steps == [] then s else Run(Next(s, steps[0]), steps[1..])
  }

  predicate AllPlausible(steps: seq<Step>) { forall i :: 0 <= i < |steps| ==> Plausible(steps[i]) }

  lemma RoundKeeps(s: Machine, pins: Pins)
    requires Inv(s) && !s.exec.active
    ensures Inv(s.(pins := pins))
  {
  }

  lemma NextKeeps(s: Machine, step: Step)
    requires Inv(s) && Plausible(step)
    ensures Inv(Next(s, step))
  {
    match step
    case UploadStep(r) => UploadKeeps(s, r);
    case ControlStep(op, id, input) => ControlKeeps(s, op, id, input);
    case MemoryStep(r) => HostMemoryKeeps(s, r);
    case TimeoutStep(r, later) => TimeoutKeeps(s, r, later);
    case ServiceStep(input) => ServiceKeeps(s, input);
    case PreparedRound(pins) => if !s.exec.active { RoundKeeps(s, pins); }
  }

  lemma {:induction false} RunKeeps(s: Machine, steps: seq<Step>)
    requires Inv(s) && AllPlausible(steps)
    ensures Inv(Run(s, steps))
    decreases steps
  {
    if steps != [] {
      hide Inv; hide Next;
      assert Plausible(steps[0]);
      NextKeeps(s, steps[0]);
      RunKeeps(Next(s, steps[0]), steps[1..]);
    }
  }

  lemma Reached(start: Machine, steps: seq<Step>)
    requires Initial(start) && AllPlausible(steps)
    ensures Inv(Run(start, steps))
  {
    InitialInv(start);
    RunKeeps(start, steps);
  }

  // ---- lifecycle ------------------------------------------------------------------------------

  /** The executor and the manager stay in step over every run. */
  lemma LifecycleInStep(start: Machine, steps: seq<Step>)
    requires Initial(start) && AllPlausible(steps)
    ensures var s := Run(start, steps);
            && (s.exec.active ==> (s.site.manager.state.Running? || s.site.manager.state.Completed?)
                                  && s.site.manager.workloadId != 0 && s.exec.clock.SteppedClock? && s.busActive)
            && (s.exec.idle <==> s.exec.active && s.site.manager.state.Completed?)
            && (s.site.manager.state.Completed? ==> s.exec.active)
            && (Serviceable(s) <==> s.exec.active && s.site.manager.state.Running?)
  {
    Reached(start, steps);
  }

  /** Every step that takes the executor out of execution leaves RESET held, the
      clock stopped, INTR low and the AD lines released, except exactly the
      restart that hands a live processor to the prepared calculator. */
  lemma ExitsAreSafe(start: Machine, steps: seq<Step>, step: Step)
    requires Initial(start) && AllPlausible(steps) && Plausible(step)
    ensures var s := Run(start, steps);
            s.exec.active && !Next(s, step).exec.active ==>
              (Safe(Next(s, step).pins)
               <==> !(step.ControlStep? && HandsOver(s, step.operation, step.input)))
  {
    hide Run; hide Inv; hide Safe; hide HandsOver; hide Control; hide Service; hide Upload;
    hide Initial; hide AllPlausible;
    Reached(start, steps);
    var s := Run(start, steps);
    match step
    case UploadStep(r) => UploadKeeps(s, r);
    case ControlStep(op, id, input) => ControlKeeps(s, op, id, input);
    case MemoryStep(r) =>
    case TimeoutStep(r, later) =>
    case ServiceStep(input) => ServiceKeeps(s, input);
    case PreparedRound(pins) =>
  }

  /** What a caller can see before the record: a RESTART that the manager takes,
      of an unlimited execution whose image now is the calculator's. */
  predicate TakesOver(s: Machine, op: Operation, id: u32) {
    op.RestartIt? && IsCalculator(s.site) && RestartAllowed(s.site.manager, id) && s.exec.timeoutMs == 0
  }

  /** In every reachable state that executes: a control record leaves a safe bus
      however the hardware answers, if and only if it is not such a RESTART. */
  lemma ExitsSafeExactly(start: Machine, steps: seq<Step>, op: Operation, id: u32)
    requires Initial(start) && AllPlausible(steps) && Run(start, steps).exec.active
    ensures var s := Run(start, steps);
            (forall input :: !Next(s, ControlStep(op, id, input)).exec.active ==>
                               Safe(Next(s, ControlStep(op, id, input)).pins))
            <==> !TakesOver(s, op, id)
  {
    hide Run; hide Initial; hide AllPlausible; hide Inv; hide IsCalculator; hide StartGeneral; hide Safe;
    var s := Run(start, steps);
    if TakesOver(s, op, id) {
      HandedLive(s, id, ControlInput(StartInput(Hardware(true, true, 0), 0), Hardware(true, true, 0), Live(true)));
    } else {
      forall input | !Next(s, ControlStep(op, id, input)).exec.active
        ensures Safe(Next(s, ControlStep(op, id, input)).pins)
      {
        ExitsAreSafe(start, steps, ControlStep(op, id, input));
      }
    }
  }

  lemma HandedLive(s: Machine, id: u32, input: ControlInput)
    requires s.exec.active && TakesOver(s, RestartIt, id) && input.prepared.Live?
    ensures var t := Next(s, ControlStep(RestartIt, id, input));
            !t.exec.active && !t.pins.reset && t.pins.clock.FreeRunning? && !Safe(t.pins)
  {
    hide IsCalculator; hide RestartAllowed;
  }

  // ---- what a control record is answered ------------------------------------------------------

  /** A start that is answered OK has a processor at work. */
  predicate AtWork(s: Machine) { s.site.manager.state.Running? && (s.exec.active || (s.prepared && s.busActive)) }

  lemma StartAnswers(s: Machine, calculator: bool, input: ControlInput)
    requires Resting(s) && s.site.manager.state.Running? && s.site.manager.workloadId != 0
    ensures var r := StartNow(s, calculator, input);
            && r.machine.site.manager == s.site.manager.(state := r.machine.site.manager.state)
            && (r.status == OK ==> AtWork(r.machine))
            && (r.status != OK ==> r.status == BAD_WORKLOAD && r.machine.site.manager.state.Faulted? && !r.machine.exec.active)
  {
    hide StartGeneral; hide Resting; hide Inv;
    if calculator { CalculatorKeeps(s, input.prepared); } else { StartKeeps(s, input.start); }
    RestingInactive(s);
    RestingInactive(StartCalculator(s, input.prepared).machine);
    if !StartGeneral(s, input.start).ok && !calculator { RestingInactive(StartGeneral(s, input.start).machine); }
  }

  lemma RestingInactive(s: Machine)
    ensures Resting(s) ==> !s.exec.active
  {
  }

  /** In every reachable state: RUN and RESTART answered OK have put a processor
      to work, and STOP answered OK has left a workload that RUN takes again; a
      record that is refused changes nothing, and a start that fails leaves a
      fault and no execution. No record changes the workload itself. */
  lemma ControlAnswers(start: Machine, steps: seq<Step>, op: Operation, id: u32, input: ControlInput)
    requires Initial(start) && AllPlausible(steps)
    ensures var s := Run(start, steps);
            var r := Control(s, op, id, input);
            var t, m := r.machine, r.machine.site.manager;
            && m == s.site.manager.(state := m.state)
            && ((op.RunIt? || op.RestartIt?) && r.status == OK ==> AtWork(t))
            && (op.StopIt? && r.status == OK ==> m.state.Stopped? && !t.exec.active && m.workloadId != 0 && (id == 0 || id == m.workloadId))
            && (r.status != OK ==> t == s || ((op.RunIt? || op.RestartIt?) && m.state.Faulted? && !t.exec.active))
            && (op.StatusIt? ==> t == s)
  {
    hide Run; hide Inv; hide Initial; hide AllPlausible; hide StartNow; hide StopGeneral; hide IsCalculator; hide Resting; hide AtWork;
    Reached(start, steps);
    var s := Run(start, steps);
    var m := s.site.manager;
    var calculator := IsCalculator(s.site);
    if op.RunIt? && RunAllowed(m, id) {
      RestsBefore(s);
      StartAnswers(WithState(s, Running), calculator, input);
    }
    if op.StopIt? { StopManager(WithState(s, State.Stopped), input.halt); }
    if op.RestartIt? && RestartAllowed(m, id) {
      RestsAfter(s, input.halt);
      var t := WithState(s, Running);
      StopManager(t, input.halt);
      StartAnswers(if s.exec.active then StopGeneral(t, input.halt) else t, calculator, input);
    }
  }

  lemma RestsBefore(s: Machine)
    requires Inv(s) && !Busy(s.site.manager) && !s.site.manager.state.Empty?
    ensures Resting(WithState(s, Running))
  {
    NotActive(s);
    hide FirmwareValid; hide Conserved; hide StatsInv; hide Alive;
  }

  lemma RestsAfter(s: Machine, halt: Hardware)
    requires Inv(s) && !s.site.manager.state.Empty?
    ensures var t := WithState(s, Running);
            Resting(if s.exec.active then StopGeneral(t, halt) else t)
  {
    hide FirmwareValid; hide Conserved; hide StatsInv; hide Alive; hide StopGeneral;
    if s.exec.active { StopRests(WithState(s, Running), halt); }
  }

  // ---- the execution deadline -------------------------------------------------------------------------

  /** The limit is armed exactly while an unfinished execution has one. */
  lemma DeadlineArmed(start: Machine, steps: seq<Step>)
    requires Initial(start) && AllPlausible(steps)
    ensures var e := Run(start, steps).exec;
            && (e.deadlineUs != 0 <==> e.active && !e.idle && e.timeoutMs != 0)
            && (e.deadlineUs != 0 ==> e.deadlineUs == e.startedUs + 1000 * e.timeoutMs)
  {
    Reached(start, steps);
  }

  predicate Overdue(s: Machine, now: nat) {
    Serviceable(s) && s.exec.timeoutMs != 0 && now >= s.exec.startedUs + 1000 * s.exec.timeoutMs
  }

  /** A service call that sees the limit reached begins no bus cycle and ends
      the run; one that does not never reports the limit. */
  lemma DeadlineExact(start: Machine, steps: seq<Step>, input: ServiceInput)
    requires Initial(start) && AllPlausible(steps)
    ensures var s := Run(start, steps);
            var t := Service(s, input);
            if Overdue(s, s.log.clock + input.check)
            then t.exec.reason.ExecutionDeadline? && t.site.manager.state.TimedOut? && !t.exec.active && Safe(t.pins)
                 && t.exec.stats == s.exec.stats && t.site.store == s.site.store && t.log.cycles == s.log.cycles
            else t.exec.reason.ExecutionDeadline? ==> s.exec.reason.ExecutionDeadline?
  {
    hide Run; hide Inv; hide Service; hide Overdue; hide Safe; hide Initial; hide AllPlausible;
    Reached(start, steps);
    DeadlineStep(Run(start, steps), input);
  }

  lemma OverdueSeen(s: Machine, now: nat)
    requires Inv(s)
    ensures Overdue(s, now) <==> Serviceable(s) && DeadlineSeen(s, now)
  {
    hide Alive; hide Conserved; hide StatsInv; hide SiteInv;
  }

  lemma EndedFrame(s: Machine, reason: Reason, state: State, halt: Hardware)
    ensures var t := Ended(s, reason, state, halt);
            t.exec.stats == s.exec.stats && t.site.store == s.site.store && t.log == s.log
  {
  }

  lemma DeadlineStep(s: Machine, input: ServiceInput)
    requires Inv(s)
    ensures var t := Service(s, input);
            if Overdue(s, s.log.clock + input.check)
            then t.exec.reason.ExecutionDeadline? && t.site.manager.state.TimedOut? && !t.exec.active && Safe(t.pins)
                 && t.exec.stats == s.exec.stats && t.site.store == s.site.store && t.log.cycles == s.log.cycles
            else t.exec.reason.ExecutionDeadline? ==> s.exec.reason.ExecutionDeadline?
  {
    hide Inv; hide Ended; hide AtVerdict; hide Unfinished; hide Overdue; hide DeadlineSeen; hide Safe;
    var now := s.log.clock + input.check;
    OverdueSeen(s, now);
    if Overdue(s, now) {
      ClockKeeps(s, now);
      var t := s.(log := s.log.(clock := now));
      EndedKeeps(t, ExecutionDeadline, TimedOut, input.halt);
      EndedFrame(t, ExecutionDeadline, TimedOut, input.halt);
    } else if Serviceable(s) {
      VerdictReason(s, input);
    }
  }

  lemma VerdictReason(s: Machine, input: ServiceInput)
    requires Serviceable(s) && !DeadlineSeen(s, s.log.clock + input.check)
    ensures Service(s, input).exec.reason.ExecutionDeadline? ==> s.exec.reason.ExecutionDeadline?
  {
    hide AtVerdict; hide Unfinished;
    CycledReason(s, input);
    var c := AtVerdict(s, input);
    UnfinishedReason(c.machine, c.machine.log.clock + input.starve, input.halt);
  }

  lemma EndedReason(s: Machine, reason: Reason, state: State, halt: Hardware)
    ensures Ended(s, reason, state, halt).exec.reason.ExecutionDeadline? ==> reason.ExecutionDeadline?
  {
    hide StopGeneral;
    StopReason(s.(exec := s.exec.(reason := reason)), halt);
  }

  lemma UnfinishedReason(s: Machine, now: nat, halt: Hardware)
    ensures Unfinished(s, now, halt).exec.reason.ExecutionDeadline? ==> s.exec.reason.ExecutionDeadline?
  {
    hide StopGeneral; hide ImmediateFault; hide CompleteAllowed; hide HaltIndication; hide Ended;
    var x := s.exec;
    StopReason(s.(exec := x.(idleArmed := false)), halt);
    var since := if x.starvationUs == 0 then now else x.starvationUs;
    EndedReason(s.(exec := x.(starvationUs := since), log := s.log.(clock := now)), NoBusCycle, TimedOut, halt);
    EndedReason(s.(exec := x.(starvationUs := 0)), BusFault, Faulted, halt);
  }

  lemma CycledReason(s: Machine, input: ServiceInput)
    ensures AtVerdict(s, input).machine.exec.reason == s.exec.reason
  {
    hide Serve; hide Callbacks; hide Poll;
  }

  lemma StartReason(s: Machine, input: StartInput)
    ensures !StartGeneral(s, input).machine.exec.reason.ExecutionDeadline?
  {
    hide InitMailbox; hide Repeat;
  }

  lemma StopReason(s: Machine, halt: Hardware)
    ensures StopGeneral(s, halt).exec.reason.ExecutionDeadline? ==> s.exec.reason.ExecutionDeadline?
  {
  }

  lemma StartNowReason(s: Machine, calculator: bool, input: ControlInput)
    ensures StartNow(s, calculator, input).machine.exec.reason.ExecutionDeadline? ==> s.exec.reason.ExecutionDeadline?
  {
    StartReason(s, input.start);
    hide StartGeneral;
  }

  lemma ControlReason(s: Machine, op: Operation, id: u32, input: ControlInput)
    ensures Control(s, op, id, input).machine.exec.reason.ExecutionDeadline? ==> s.exec.reason.ExecutionDeadline?
  {
    hide StartNow; hide StopGeneral; hide IsCalculator; hide RunAllowed; hide StopAllowed; hide RestartAllowed;
    var t := WithState(s, Running);
    StopReason(WithState(s, State.Stopped), input.halt);
    StopReason(t, input.halt);
    StartNowReason(t, IsCalculator(s.site), input);
    StartNowReason(StopGeneral(t, input.halt), IsCalculator(s.site), input);
  }

  /** No other step ever reports the limit. */
  lemma DeadlineOnlyHere(s: Machine, step: Step)
    requires !step.ServiceStep?
    ensures Next(s, step).exec.reason.ExecutionDeadline? ==> s.exec.reason.ExecutionDeadline?
  {
    if step.ControlStep? { ControlReason(s, step.operation, step.id, step.input); }
    hide Control; hide HandleUpload; hide Dispatch;
  }

  // ---- the tick in every run ----------------------------------------------------------------------------

  /** In every reachable state each gap of the tick account is zero or one, also
      after a stop; while the source runs it is exact, the INTR line is the
      request flag, and a raised line means both recoveries have passed. */
  lemma TicksInEveryRun(start: Machine, steps: seq<Step>)
    requires Initial(start) && AllPlausible(steps)
    ensures var s := Run(start, steps);
            var t := s.exec.tick;
            && Undelivered(t) <= 1 && Unacknowledged(t) <= 1 && Unended(t) <= 1
            && (t.enabled ==> Undelivered(t) == One(t.pending) && Unacknowledged(t) == t.ackPhase
                              && Unended(t) == One(t.inService))
            && (s.exec.active ==> s.pins.intr == t.asserted && s.exec.stats.counters.cycles == Wrap32(s.log.cycles))
            && (s.exec.active && s.pins.intr ==> t.pending && t.ackPhase == 0 && !t.inService && Recovered(s.log))
            && (s.exec.active && t.enabled ==>
                  t.generated == Wrap32(s.log.periods)
                  && t.nextUs == s.exec.startedUs + PERIOD_US * (s.log.periods + 1))
            && Balanced(s.exec.stats.counters)
  {
    Reached(start, steps);
    hide Run; hide Gap; hide Wrap32;
  }

  predicate SameCount(t: Tick, u: Tick) { u.generated == t.generated && u.nextUs == t.nextUs }

  lemma CycleCounts(s: Machine, e: BusEvent, now: nat)
    ensures SameCount(s.exec.tick, CycleStep(s, e, now).machine.exec.tick)
  {
    hide Serve; hide AnswersTo; hide LineAfter; hide ProcessorMemory; hide TypeOf; hide Wrap32;
  }

  lemma StopCounts(s: Machine, halt: Hardware)
    ensures SameCount(s.exec.tick, StopGeneral(s, halt).exec.tick)
  {
    hide Halted;
  }

  lemma EndedCounts(s: Machine, reason: Reason, state: State, halt: Hardware)
    ensures SameCount(s.exec.tick, Ended(s, reason, state, halt).exec.tick)
  {
    hide StopGeneral;
    StopCounts(s.(exec := s.exec.(reason := reason)), halt);
  }

  lemma UnfinishedCounts(s: Machine, now: nat, halt: Hardware)
    ensures SameCount(s.exec.tick, Unfinished(s, now, halt).exec.tick)
  {
    hide HaltIndication; hide ImmediateFault; hide CompleteAllowed; hide StopGeneral; hide Ended;
    var x := s.exec;
    StopCounts(s.(exec := x.(idleArmed := false)), halt);
    var since := if x.starvationUs == 0 then now else x.starvationUs;
    EndedCounts(s.(exec := x.(starvationUs := since), log := s.log.(clock := now)), NoBusCycle, TimedOut, halt);
    EndedCounts(s.(exec := x.(starvationUs := 0)), BusFault, Faulted, halt);
  }

  /** After any service call of any run that does not end it on its deadline: the
      source has counted the whole periods between the start and that call's
      poll, and its next period is the next multiple. */
  lemma TicksFollowTheClock(start: Machine, steps: seq<Step>, input: ServiceInput)
    requires Initial(start) && AllPlausible(steps) && WellFormed(input.event)
    ensures var s := Run(start, steps);
            var polled := s.log.clock + input.check + input.poll;
            var t := Service(s, input).exec.tick;
            Serviceable(s) && !DeadlineSeen(s, s.log.clock + input.check) && s.exec.tick.enabled ==>
              && s.exec.startedUs <= polled
              && t.generated == Wrap32((polled - s.exec.startedUs) / PERIOD_US)
              && t.nextUs == s.exec.startedUs + PERIOD_US * ((polled - s.exec.startedUs) / PERIOD_US + 1)
  {
    hide Run; hide Inv; hide CycleStep; hide Unfinished; hide PollStep; hide Initial; hide AllPlausible; hide DeadlineSeen; hide Wrap32;
    Reached(start, steps);
    var s := Run(start, steps);
    var polled := s.log.clock + input.check + input.poll;
    if Serviceable(s) && s.exec.tick.enabled {
      ClockKeeps(s, s.log.clock + input.check);
      var looked := s.(log := s.log.(clock := s.log.clock + input.check));
      PolledCount(looked, polled);
      var u := PollStep(looked, polled);
      CycleCounts(u, input.event, u.log.clock + input.io);
      var c := AtVerdict(s, input);
      UnfinishedCounts(c.machine, c.machine.log.clock + input.starve, input.halt);
    }
  }

  lemma PolledCount(s: Machine, now: nat)
    requires Inv(s) && s.exec.active && s.exec.tick.enabled && s.log.clock <= now
    ensures var t := PollStep(s, now).exec.tick;
            && s.exec.startedUs <= now && t.generated == Wrap32((now - s.exec.startedUs) / PERIOD_US)
            && t.nextUs == s.exec.startedUs + PERIOD_US * ((now - s.exec.startedUs) / PERIOD_US + 1)
  {
    hide Conserved; hide Wrap32; hide Gated; hide LineAfter; hide Update; hide StatsInv; hide SiteInv; hide Deadline;
    PollInv(Watched(s.exec.tick, s.log), now);
    PollLine(s.exec.tick, now, Wrap32(s.log.cycles), s.exec.tick.asserted);
  }

  // ---- a start and the image -------------------------------------------------------------------------------

  /** Starting, whatever its outcome, leaves the staged image where it is. */
  lemma StartKeepsImage(start: Machine, steps: seq<Step>, input: StartInput)
    requires Initial(start) && AllPlausible(steps) && !Run(start, steps).site.manager.state.Empty?
    ensures var s := Run(start, steps);
            var m := s.site.manager.manifest;
            && RangeValid(s.site.store, m.loadAddress, m.imageSize)
            && Read(StartGeneral(s, input).machine.site.store, m.loadAddress, m.imageSize)
               == Read(s.site.store, m.loadAddress, m.imageSize)
  {
    hide Run; hide Initial; hide AllPlausible;
    Reached(start, steps);
    var s := Run(start, steps);
    assert FirmwareValid(s.site.manager.manifest, s.site.store);
    if InitMailbox(s.site.store).Some? { MailboxResetKeepsImage(s.site.manager.manifest, s.site.store); }
    hide InitMailbox; hide Read;
  }

  // ---- what an accepted commit finds ---------------------------------------------------------------------------

  /** A transfer as the Host can work it out from its own records and their
      replies: the payloads accepted since the last accepted BEGIN, and the same
      bytes with every accepted memory write applied to them in its turn. */
  datatype Account = Account(sent: seq<byte>, held: seq<byte>)

  const NOTHING: Account := Account([], [])

  /** A memory write that is answered OK. */
  predicate WriteApplied(s: Machine, r: Message) {
    && |r.payload| >= 12 && r.payload[0] == MEMORY_WRITE
    && Dispatch(s.site.store, s.site.manager.state.Running?, r).reply.status == OK
  }

  function Tallied(t: Account, s: Machine, step: Step): Account {
    match step
    case UploadStep(r) => Account(Gathered(t.sent, s.site, r), Gathered(t.held, s.site, r))
    case MemoryStep(r) =>
      if !WriteApplied(s, r) then t
      else t.(held := Patched(t.held, Load32(r.payload, 4) - s.site.manager.manifest.loadAddress, r.payload[12..]))
    case _ => t
  }

  function TalliedBy(t: Account, s: Machine, steps: seq<Step>): Account
    decreases steps
  {
    if steps == [] then t else TalliedBy(Tallied(t, s, steps[0]), Next(s, steps[0]), steps[1..])
  }

  lemma MemoryGathers(s: Machine, t: Account, r: Message)
    requires UploadInv(s.site, t.sent, t.held)
    ensures var u := Tallied(t, s, MemoryStep(r));
            UploadInv(HostMemory(s, r).site, u.sent, u.held)
  {
    hide UploadInv; hide Load32; hide HostOwned; hide Put; hide Read; hide Patched;
    if WriteApplied(s, r) { PokeInv(s.site, t.sent, t.held, Load32(r.payload, 4), r.payload[12..]); }
  }

  lemma ControlGathers(s: Machine, op: Operation, id: u32, input: ControlInput)
    ensures var t := Control(s, op, id, input).machine;
            t.site.manager.state.Receiving? ==> t.site == s.site
  {
    hide StartNow; hide StopGeneral; hide IsCalculator; hide RunAllowed; hide StopAllowed; hide RestartAllowed;
    var t := WithState(s, Running);
    StopManager(t, input.halt);
    StopManager(WithState(s, State.Stopped), input.halt);
    StartState(t, IsCalculator(s.site), input);
    StartState(StopGeneral(t, input.halt), IsCalculator(s.site), input);
  }

  lemma StartState(s: Machine, calculator: bool, input: ControlInput)
    ensures var state := StartNow(s, calculator, input).machine.site.manager.state;
            state == s.site.manager.state || state.Faulted?
  {
    hide InitMailbox;
  }

  lemma ServiceGathers(s: Machine, input: ServiceInput)
    requires Inv(s) && WellFormed(input.event)
    ensures Service(s, input).site.manager.state.Receiving? ==> Service(s, input).site == s.site
  {
    hide AtVerdict; hide Inv; hide StopGeneral; hide CompleteAllowed; hide HaltIndication; hide ImmediateFault;
    if Serviceable(s) {
      VerdictKeeps(s, input);
      ServiceableRuns(AtVerdict(s, input).machine);
      UnfinishedState(AtVerdict(s, input).machine, AtVerdict(s, input).machine.log.clock + input.starve, input.halt);
      hide Unfinished;
    }
  }

  lemma ServiceableRuns(s: Machine)
    requires Inv(s) && Serviceable(s)
    ensures s.site.manager.state.Running?
  {
  }

  lemma UnfinishedState(s: Machine, now: nat, halt: Hardware)
    requires s.site.manager.state.Running?
    ensures !Unfinished(s, now, halt).site.manager.state.Receiving?
  {
    hide StopGeneral; hide CompleteAllowed; hide HaltIndication; hide ImmediateFault;
  }

  lemma NextGathers(s: Machine, t: Account, step: Step)
    requires Inv(s) && Plausible(step) && UploadInv(s.site, t.sent, t.held)
    ensures var u := Tallied(t, s, step);
            UploadInv(Next(s, step).site, u.sent, u.held)
  {
    hide Inv; hide HandleUpload; hide Gathered; hide Control; hide Service; hide HostMemory; hide Stage; hide FirmwareValid;
    hide WriteApplied; hide Patched;
    match step
    case UploadStep(r) =>
      HandleUploadInv(s.site, t.sent, t.held, r);
      UploadSiteOnly(s, r);
    case ControlStep(op, id, input) => ControlGathers(s, op, id, input);
    case MemoryStep(r) => MemoryGathers(s, t, r);
    case TimeoutStep(r, later) =>
    case ServiceStep(input) => ServiceGathers(s, input);
    case PreparedRound(pins) =>
  }

  lemma UploadSiteOnly(s: Machine, r: Message)
    ensures Upload(s, r).site == HandleUpload(s.site, r).site
  {
    hide HandleUpload;
  }

  lemma {:induction false} RunGathers(s: Machine, t: Account, steps: seq<Step>)
    requires Inv(s) && AllPlausible(steps) && UploadInv(s.site, t.sent, t.held)
    ensures var u := TalliedBy(t, s, steps);
            UploadInv(Run(s, steps).site, u.sent, u.held)
    decreases steps
  {
    hide Inv; hide Next; hide UploadInv; hide Tallied;
    if steps != [] {
      assert Plausible(steps[0]);
      NextKeeps(s, steps[0]);
      NextGathers(s, t, steps[0]);
      RunGathers(Next(s, steps[0]), Tallied(t, s, steps[0]), steps[1..]);
    }
  }

  /** Whatever the supervisor has been through, earlier uploads, executions,
      refused records and Host memory writes included: a commit that is accepted
      has checked what was sent and finds what is held, so it finds what was sent
      if and only if the two accounts agree. */
  lemma AcceptedCommitExactly(start: Machine, steps: seq<Step>, r: Message)
    requires Initial(start) && AllPlausible(steps)
    requires r.kind == WORKLOAD_COMMIT && HandleUpload(Run(start, steps).site, r).status == OK
    ensures var t := Next(Run(start, steps), UploadStep(r));
            var m, account := t.site.manager.manifest, TalliedBy(NOTHING, start, steps);
            var found := Read(t.site.store, m.loadAddress, m.imageSize);
            && t.site.manager.state.Staged? && t.site.manager.workloadId != 0
            && |account.sent| == m.imageSize && Checksum(account.sent) == m.imageCrc
            && found == Some(account.held) && (found == Some(account.sent) <==> account.held == account.sent)
            && (m.loadAddress + m.imageSize <= MAILBOX_BASE || MAILBOX_BASE + MAILBOX_SIZE <= m.loadAddress)
  {
    hide Run; hide HandleUpload; hide TalliedBy; hide Read; hide Checksum; hide Stage; hide Inv; hide AllPlausible;
    InitialInv(start);
    RunGathers(start, NOTHING, steps);
    var account := TalliedBy(NOTHING, start, steps);
    CommitFinds(Run(start, steps).site, account.sent, account.held, r);
    UploadSiteOnly(Run(start, steps), r);
  }

  /** A memory write that is applied to bytes of the transfer already received. */
  predicate Disturbs(s: Machine, step: Step) {
    && step.MemoryStep? && s.site.manager.state.Receiving? && WriteApplied(s, step.record)
    && var m, from, length := s.site.manager, Load32(step.record.payload, 4), |step.record.payload| - 12;
       length != 0 && from < m.manifest.loadAddress + m.received && m.manifest.loadAddress < from + length
  }

  predicate Undisturbed(s: Machine, steps: seq<Step>)
    decreases steps
  {
    steps == [] || (!Disturbs(s, steps[0]) && Undisturbed(Next(s, steps[0]), steps[1..]))
  }

  lemma StepAgrees(s: Machine, t: Account, step: Step)
    requires Inv(s) && Plausible(step) && UploadInv(s.site, t.sent, t.held) && !Disturbs(s, step)
    requires s.site.manager.state.Receiving? ==> t.held == t.sent
    ensures var u := Tallied(t, s, step);
            Next(s, step).site.manager.state.Receiving? ==> u.held == u.sent
  {
    hide HandleUpload; hide Control; hide Service; hide Dispatch; hide Stage; hide FirmwareValid; hide Reference; hide Load32;
    hide Inv;
    match step
    case UploadStep(r) =>
      UploadSiteOnly(s, r);
      if !s.site.manager.state.Receiving? && Upload(s, r).site.manager.state.Receiving? { OpensReceiving(s.site, r); }
    case ControlStep(op, id, input) => ControlGathers(s, op, id, input);
    case MemoryStep(r) =>
    case TimeoutStep(r, later) =>
    case ServiceStep(input) => ServiceGathers(s, input);
    case PreparedRound(pins) =>
  }

  /** Only an accepted BEGIN starts receiving. */
  lemma OpensReceiving(site: Site, r: Message)
    requires !site.manager.state.Receiving? && HandleUpload(site, r).site.manager.state.Receiving?
    ensures HandleUpload(site, r).status == OK && r.kind == WORKLOAD_BEGIN
  {
    hide Decode; hide FirmwareValid;
  }

  lemma {:induction false} RunAgrees(s: Machine, t: Account, steps: seq<Step>)
    requires Inv(s) && AllPlausible(steps) && UploadInv(s.site, t.sent, t.held) && Undisturbed(s, steps)
    requires s.site.manager.state.Receiving? ==> t.held == t.sent
    ensures var u := TalliedBy(t, s, steps);
            Run(s, steps).site.manager.state.Receiving? ==> u.held == u.sent
    decreases steps
  {
    hide Inv; hide Next; hide UploadInv; hide Tallied; hide Disturbs;
    if steps != [] {
      assert Plausible(steps[0]);
      NextKeeps(s, steps[0]);
      NextGathers(s, t, steps[0]);
      StepAgrees(s, t, steps[0]);
      RunAgrees(Next(s, steps[0]), Tallied(t, s, steps[0]), steps[1..]);
    }
  }

  /** So without such a write an accepted commit finds exactly what was sent. */
  lemma AcceptedCommitSound(start: Machine, steps: seq<Step>, r: Message)
    requires Initial(start) && AllPlausible(steps) && Undisturbed(start, steps)
    requires r.kind == WORKLOAD_COMMIT && HandleUpload(Run(start, steps).site, r).status == OK
    ensures var t := Next(Run(start, steps), UploadStep(r));
            var m := t.site.manager.manifest;
            Read(t.site.store, m.loadAddress, m.imageSize) == Some(TalliedBy(NOTHING, start, steps).sent)
  {
    hide Run; hide HandleUpload; hide TalliedBy; hide Read; hide Checksum; hide Next; hide Inv; hide AllPlausible; hide Undisturbed;
    InitialInv(start);
    AcceptedCommitExactly(start, steps, r);
    RunAgrees(start, NOTHING, steps);
    CommitReceives(Run(start, steps).site, r);
  }

  lemma CommitReceives(site: Site, r: Message)
    requires r.kind == WORKLOAD_COMMIT && HandleUpload(site, r).status == OK
    ensures site.manager.state.Receiving?
  {
    hide Decode; hide ToWord;
  }
}
