/** What one service call makes of what happens on the bus: told from the pins,
    the port numbers, the idle flag and the tick, in every reachable state. */
module ServiceVerdicts {
  import opened Words
  import opened WorkloadManager
  import opened PeriodicTick
  import opened LaneBus
  import opened ProcessorBus
  import opened NativeOutput
  import opened Supervisor
  import opened SupervisorRuns

  // ---- the surroundings of the processor, written out ------------------------------------

  /** RAM fills the first 256 KiB; the last 16 bytes of the space are read only. */
  predicate Backed(a: nat) { a < 0x40000 || 0xFFFF0 <= a < 0x10_0000 }

  const RAM_ADDRESSES: set<nat> := set a: nat | a < 0x40000

  /** Every byte the processor can read. */
  function Visible(site: Site): Flat
    requires |site.store.bytes| == 0x40000
  {
    map a: nat | a < 0x10_0000 && Backed(a) ::
      if a < 0x40000 then site.store.bytes[a] else Handoff(site.manager.manifest)[a - 0xFFFF0]
  }

  /** What a write cycle carries to a port: the odd lane for an odd port. */
  function Carried(e: BusEvent): u16
    requires e.Cycle?
  {
    if e.address % 2 == 1 then e.data / 256 else e.data
  }

  /** The ports by number: one is read, seven are written. */
  function Replies(t: Tick, e: BusEvent): Answers {
    if !e.Cycle? then Answers(None, false, None)
    else
      var port := e.address % 0x1_0000;
      Answers(if port == 0xE0 then Some(1) else None,
              port in {0x20, 0xE0, 0xE2, 0xE6, 0xE8, 0xE9} || (port == 0xEA && Carried(e) == 2),
              if !t.enabled then None
              else if t.ackPhase == 1 then Some(Vector(true, 0x21))
              else if t.asserted then Some(Vector(false, 0))
              else None)
  }

  /** The tick at the bus cycle of a call: polled first, unless idle is prepared. */
  function Polled(s: Machine, input: ServiceInput): Tick {
    if s.exec.idleArmed then s.exec.tick
    else Poll(Watched(s.exec.tick, s.log), s.log.clock + input.check + input.poll).tick
  }

  /** How the bus cycle of a call comes out. */
  function CycleFate(s: Machine, input: ServiceInput): Fate
    requires |s.site.store.bytes| == 0x40000
  {
    FateOf(Visible(s.site), RAM_ADDRESSES, input.event, Replies(Polled(s, input), input.event))
  }

  // ---- the verdicts ----------------------------------------------------------------------

  predicate Finished(r: Machine) {
    && r.site.manager.state.Completed? && r.exec.active && r.exec.idle && r.exec.reason.NativeHlt?
    && !r.exec.idleArmed && r.exec.deadlineUs == 0
  }

  predicate EndedBy(r: Machine, state: State, reason: Reason) {
    r.site.manager.state == state && !r.exec.active && !r.exec.idle && r.exec.reason == reason && Safe(r.pins)
  }

  predicate GoesOn(s: Machine, r: Machine) {
    && r.site.manager == s.site.manager && r.exec.active && !r.exec.idle && r.exec.reason == s.exec.reason
    && r.exec.deadlineUs == s.exec.deadlineUs
  }

  /** Silence lasts from its first call; the word zero means it has not begun. */
  predicate Waits(s: Machine, now: nat, r: Machine) {
    var since := if s.exec.starvationUs == 0 then now else s.exec.starvationUs;
    if now - since < 100_000
    then GoesOn(s, r) && r.exec.starvationUs == since && !r.exec.idleArmed && r.log.clock == now
    else EndedBy(r, TimedOut, NoBusCycle)
  }

  /** The verdict on a cycle. */
  predicate Judged(s: Machine, fate: Fate, now: nat, r: Machine) {
    match fate
    case Done => GoesOn(s, r) && r.exec.starvationUs == 0
    case NoStrobe => if s.exec.idleArmed then Finished(r) else Waits(s, now, r)
    case NoLaneSelected => if s.exec.idleArmed then Finished(r) else EndedBy(r, Faulted, BusFault)
    case Unbacked => if s.exec.idleArmed then Finished(r) else EndedBy(r, Faulted, BusFault)
    case ClockLost => EndedBy(r, Faulted, BusFault)
    case PadsDiffer => EndedBy(r, Faulted, BusFault)
    case AckRefused => EndedBy(r, Faulted, BusFault)
  }

  // ---- the model against what is written out ---------------------------------------------

  lemma VisibleIsImage(site: Site)
    requires SiteInv(site)
    ensures Visible(site) == Image(ProcessorMemory(site)) && RAM_ADDRESSES == Writable(ProcessorMemory(site))
  {
    hide FirmwareValid; hide Handoff;
    var m := ProcessorMemory(site);
    forall a: nat
      ensures a in Visible(site) <==> a in Image(m)
    {
    }
    assert Visible(site).Keys == Image(m).Keys;
  }

  lemma SameAnswers(x: Executor, e: BusEvent)
    requires x.clock.SteppedClock? && x.tick.ackPhase <= 1 && e.Cycle?
    ensures var io, replies := AnswersTo(x, e), Replies(x.tick, e);
            && (TypeOf(e).InterruptAck? ==> io.ack == replies.ack)
            && (TypeOf(e).IoRead? ==> io.read == replies.read)
            && (TypeOf(e).IoWrite? && e.finish.Samples? ==> io.write == replies.write)
  {
    PinsDecode(e);
    hide PinSelected; hide TypeOf;
  }

  lemma SameFate(flat: Flat, writable: set<nat>, x: Executor, e: BusEvent)
    requires x.clock.SteppedClock? && x.tick.ackPhase <= 1
    ensures FateOf(flat, writable, e, AnswersTo(x, e)) == FateOf(flat, writable, e, Replies(x.tick, e))
    ensures FlatNext(flat, writable, e, AnswersTo(x, e)) == FlatNext(flat, writable, e, Replies(x.tick, e))
  {
    if e.Cycle? {
      PinsDecode(e);
      SameAnswers(x, e);
    }
    hide PinSelected; hide TypeOf; hide AnswersTo; hide Replies;
  }

  /** The machine at the bus cycle of a call. */
  function AtCycle(s: Machine, input: ServiceInput): Machine {
    var now := s.log.clock + input.check;
    PollStep(s.(log := s.log.(clock := now)), now + input.poll)
  }

  lemma PolledFirst(s: Machine, input: ServiceInput)
    ensures var u := AtCycle(s, input);
            && u == s.(exec := s.exec.(tick := Polled(s, input)), log := u.log, pins := u.pins)
            && u.log == s.log.(clock := u.log.clock, periods := u.log.periods)
            && u.log.clock == s.log.clock + input.check + if s.exec.idleArmed then 0 else input.poll
  {
    hide Update; hide LineAfter;
  }

  lemma PolledInv(s: Machine, input: ServiceInput)
    requires Inv(s) && Serviceable(s)
    ensures Inv(AtCycle(s, input)) && Serviceable(AtCycle(s, input))
  {
    hide Inv; hide PollStep;
    var now := s.log.clock + input.check;
    ClockKeeps(s, now);
    PollKeeps(s.(log := s.log.(clock := now)), now + input.poll);
  }

  lemma AliveTick(s: Machine)
    requires Inv(s) && Serviceable(s)
    ensures s.exec.clock.SteppedClock? && s.exec.tick.ackPhase <= 1 && Conserved(s.exec.tick)
    ensures SiteInv(s.site) && StatsInv(s.exec.stats) && s.pins.intr == s.exec.tick.asserted
  {
    hide SiteInv; hide StatsInv; hide Gap; hide Gated;
  }

  /** Only a write that completes prepares idle. */
  lemma StaysUnarmed(s: Machine, e: BusEvent, now: nat)
    requires s.exec.clock.SteppedClock? && !CycleStep(s, e, now).completed
    ensures CycleStep(s, e, now).machine.exec.idleArmed == s.exec.idleArmed
  {
    hide LaneRead; hide LaneWrite; hide ReadbackMatches; hide Count; hide Restore; hide Print; hide IdlePrepared;
    hide Acknowledge; hide LineAfter; hide ProcessorMemory; hide TypeOf; hide LanesOf;
  }

  /** A cycle leaves everything else about the execution alone. */
  lemma CycleFrame(s: Machine, e: BusEvent, now: nat)
    ensures var x := CycleStep(s, e, now).machine;
            && x.exec == s.exec.(tick := x.exec.tick, idleArmed := x.exec.idleArmed, console := x.exec.console, stats := x.exec.stats)
            && x.site == s.site.(store := s.site.store.(bytes := x.site.store.bytes))
            && (!e.Cycle? ==> x.log.clock == s.log.clock)
  {
    hide Serve; hide AnswersTo; hide LineAfter; hide Restore; hide Print; hide IdlePrepared; hide Acknowledge; hide TypeOf;
    hide ProcessorMemory;
  }

  lemma CycleSettles(s: Machine, e: BusEvent, now: nat)
    requires Inv(s) && Serviceable(s) && WellFormed(e)
    ensures var c, fate := CycleStep(s, e, now), FateOf(Visible(s.site), RAM_ADDRESSES, e, Replies(s.exec.tick, e));
            && Reports(Served(ProcessorMemory(c.machine.site), c.machine.exec.stats, c.completed), fate, e)
            && (!fate.Done? ==> c.machine.exec.idleArmed == s.exec.idleArmed)
            && |c.machine.site.store.bytes| == 0x40000
            && Visible(c.machine.site) == FlatNext(Visible(s.site), RAM_ADDRESSES, e, Replies(s.exec.tick, e))
  {
    hide Inv; hide FateOf; hide FlatNext; hide Image; hide Writable; hide Visible; hide Callbacks; hide DrivesSelected;
    hide AnswersTo; hide Replies;
    AliveTick(s);
    VisibleIsImage(s.site);
    SameFate(Visible(s.site), RAM_ADDRESSES, s.exec, e);
    ServeRefines(ProcessorMemory(s.site), s.exec.stats, e, AnswersTo(s.exec, e));
    CycleSite(s, e, now);
    var c := CycleStep(s, e, now);
    if !c.completed { StaysUnarmed(s, e, now); }
    hide Serve; hide SiteInv; hide Handoff;
    VisibleIsImage(c.machine.site);
  }

  lemma NotIdle(s: Machine)
    requires Inv(s) && !s.exec.active
    ensures !s.exec.idle
  {
  }

  /** The verdict on a cycle that did not complete, from what its flags say. */
  lemma UnfinishedJudged(s: Machine, fate: Fate, ack: bool, now: nat, halt: Hardware)
    requires Inv(s) && Serviceable(s) && s.log.clock <= now && !fate.Done?
    requires var t := s.exec.stats;
             && t.noCycle == fate.NoStrobe? && t.clockFailure == fate.ClockLost? && t.invalidLane == fate.NoLaneSelected?
             && t.unmapped == fate.Unbacked? && t.padMismatch == fate.PadsDiffer? && t.ackFlag == ack
    requires (ack ==> fate.AckRefused? || fate.ClockLost?) && (fate.AckRefused? ==> ack)
    ensures Judged(s, fate, now, Unfinished(s, now, halt))
  {
    hide Inv; hide StopGeneral;
    HaltKeeps(s, halt);
    if !fate.NoStrobe? {
      StarvationKeeps(s, 0);
      EndedKeeps(s.(exec := s.exec.(starvationUs := 0)), BusFault, Faulted, halt);
      NotIdle(Ended(s.(exec := s.exec.(starvationUs := 0)), BusFault, Faulted, halt));
    } else {
      ClockKeeps(s, now);
      var since := if s.exec.starvationUs == 0 then now else s.exec.starvationUs;
      StarvationKeeps(s.(log := s.log.(clock := now)), since);
      var t := s.(exec := s.exec.(starvationUs := since), log := s.log.(clock := now));
      EndedKeeps(t, NoBusCycle, TimedOut, halt);
      NotIdle(Ended(t, NoBusCycle, TimedOut, halt));
    }
  }

  lemma AckFates(flat: Flat, writable: set<nat>, e: BusEvent, io: Answers)
    ensures var fate, ack := FateOf(flat, writable, e, io), e.Cycle? && !e.intaN;
            && (ack ==> fate.Done? || fate.AckRefused? || fate.ClockLost?) && (fate.AckRefused? ==> ack)
            && (fate.NoStrobe? ==> e.Silent?)
  {
  }

  lemma CallJudged(s: Machine, input: ServiceInput)
    requires Inv(s) && Serviceable(s) && !DeadlineSeen(s, s.log.clock + input.check) && WellFormed(input.event)
    ensures |s.site.store.bytes| == 0x40000
    ensures Judged(s, CycleFate(s, input), s.log.clock + input.check + input.poll + input.starve, Service(s, input))
  {
    hide Inv; hide PollStep; hide CycleStep; hide Unfinished; hide FateOf; hide Replies; hide Visible; hide Polled;
    hide Safe; hide FlatNext; hide ProcessorMemory;
    var u, e := AtCycle(s, input), input.event;
    PolledFirst(s, input);
    PolledInv(s, input);
    AliveTick(s);
    CycleSettles(u, e, u.log.clock + input.io);
    CycleFrame(u, e, u.log.clock + input.io);
    CycleKeeps(u, e, u.log.clock + input.io);
    AckFates(Visible(s.site), RAM_ADDRESSES, e, Replies(Polled(s, input), e));
    var c := CycleStep(u, e, u.log.clock + input.io);
    if !c.completed {
      UnfinishedJudged(c.machine, CycleFate(s, input), e.Cycle? && !e.intaN, c.machine.log.clock + input.starve, input.halt);
    }
  }

  /** In every reachable state that is executing and whose limit is not seen: what
      the call makes of the bus event. */
  lemma ServiceVerdict(start: Machine, steps: seq<Step>, input: ServiceInput)
    requires Initial(start) && AllPlausible(steps) && WellFormed(input.event)
    ensures var s := SupervisorRuns.Run(start, steps);
            && |s.site.store.bytes| == 0x40000
            && (s.exec.active && s.site.manager.state.Running? && !Overdue(s, s.log.clock + input.check) ==>
                  Judged(s, CycleFate(s, input), s.log.clock + input.check + input.poll + input.starve, Service(s, input)))
  {
    hide SupervisorRuns.Run; hide Initial; hide AllPlausible; hide Service; hide Judged; hide CycleFate; hide Inv;
    Reached(start, steps);
    LifecycleInStep(start, steps);
    var s := SupervisorRuns.Run(start, steps);
    OverdueSeen(s, s.log.clock + input.check);
    RamFull(s);
    if s.exec.active && s.site.manager.state.Running? && !Overdue(s, s.log.clock + input.check) {
      CallJudged(s, input);
    }
  }

  /** How a processor that has halted looks from the bus. */
  predicate Quiet(fate: Fate) { fate.NoStrobe? || fate.NoLaneSelected? || fate.Unbacked? }

  /** The branch for a rejected completion is unreachable: the manager always
      completes, so an armed halt does. */
  lemma CompletionNeverRejected(start: Machine, steps: seq<Step>, input: ServiceInput)
    requires Initial(start) && AllPlausible(steps) && WellFormed(input.event)
    requires var s := SupervisorRuns.Run(start, steps);
             s.exec.active && s.site.manager.state.Running? && !Overdue(s, s.log.clock + input.check)
    ensures var s := SupervisorRuns.Run(start, steps);
            var m := AtVerdict(s, input).machine.site.manager;
            && |s.site.store.bytes| == 0x40000
            && CompleteAllowed(m, m.workloadId)
            && (s.exec.idleArmed && Quiet(CycleFate(s, input)) ==> Finished(Service(s, input)))
  {
    hide SupervisorRuns.Run; hide Initial; hide AllPlausible; hide Service; hide CycleFate; hide Inv; hide AtVerdict; hide Waits;
    hide GoesOn; hide EndedBy; hide Finished;
    ServiceVerdict(start, steps, input);
    Executing(start, steps, input);
    var s := SupervisorRuns.Run(start, steps);
    VerdictKeeps(s, input);
    HaltKeeps(AtVerdict(s, input).machine, input.halt);
  }

  lemma RamFull(s: Machine)
    requires Inv(s)
    ensures |s.site.store.bytes| == 0x40000
  {
    hide Alive; hide FirmwareValid;
  }

  // ---- silence ---------------------------------------------------------------------------

  /** How much time a call that finds the bus silent takes. */
  function Span(input: ServiceInput): nat { input.check + input.poll + input.starve }

  function Total(calls: seq<ServiceInput>): nat {
    if calls == [] then 0 else Span(calls[0]) + Total(calls[1..])
  }

  function Services(calls: seq<ServiceInput>): (steps: seq<Step>)
    ensures |steps| == |calls| && forall i :: 0 <= i < |calls| ==> steps[i] == ServiceStep(calls[i])
  {
    seq(|calls|, i requires 0 <= i < |calls| => ServiceStep(calls[i]))
  }

  predicate AllSilent(calls: seq<ServiceInput>) { forall i :: 0 <= i < |calls| ==> calls[i].event.Silent? }

  /** The limit lies beyond an instant, if there is one. */
  predicate LimitBeyond(s: Machine, until: nat) {
    s.exec.timeoutMs == 0 || until < s.exec.startedUs + 1000 * s.exec.timeoutMs
  }

  lemma LimitUnseen(s: Machine, until: nat)
    requires Inv(s) && Serviceable(s)
    ensures LimitBeyond(s, until) <==> s.exec.deadlineUs == 0 || until < s.exec.deadlineUs
  {
    hide Alive;
  }

  lemma FirstCall(s: Machine, calls: seq<ServiceInput>)
    requires calls != []
    ensures SupervisorRuns.Run(s, Services(calls)) == SupervisorRuns.Run(Service(s, calls[0]), Services(calls[1..]))
  {
    hide Service;
    assert Services(calls)[0] == ServiceStep(calls[0]);
    assert Services(calls)[1..] == Services(calls[1..]);
  }

  lemma {:induction false} NothingMore(s: Machine, calls: seq<ServiceInput>)
    requires !s.exec.active
    ensures SupervisorRuns.Run(s, Services(calls)) == s
    decreases calls
  {
    if calls != [] {
      FirstCall(s, calls);
      NothingMore(s, calls[1..]);
    }
  }

  /** Silence so far, since an instant less than the limit ago. */
  lemma {:induction false} SilenceFrom(s: Machine, since: nat, calls: seq<ServiceInput>)
    requires Inv(s) && Serviceable(s) && !s.exec.idleArmed && s.exec.starvationUs == since != 0 && AllSilent(calls)
    requires since <= s.log.clock < since + 100_000
    requires s.exec.deadlineUs == 0 || s.log.clock + Total(calls) < s.exec.deadlineUs
    ensures var r := SupervisorRuns.Run(s, Services(calls));
            if s.log.clock + Total(calls) - since < 100_000 then GoesOn(s, r) && r.exec.starvationUs == since
            else EndedBy(r, TimedOut, NoBusCycle)
    decreases calls
  {
    hide Inv; hide Service; hide FateOf; hide Safe; hide Visible; hide Replies; hide Polled;
    if calls != [] {
      var r, now := Service(s, calls[0]), s.log.clock + Span(calls[0]);
      FirstCall(s, calls);
      CallJudged(s, calls[0]);
      SilentFate(s, calls[0]);
      ServiceKeeps(s, calls[0]);
      if now - since < 100_000 {
        StillServiceable(s, r);
        SilenceFrom(r, since, calls[1..]);
      } else {
        NothingMore(r, calls[1..]);
      }
    }
  }

  lemma SilentFate(s: Machine, input: ServiceInput)
    requires input.event.Silent? && |s.site.store.bytes| == 0x40000
    ensures CycleFate(s, input).NoStrobe?
  {
  }

  lemma StillServiceable(s: Machine, r: Machine)
    requires Inv(s) && Inv(r) && GoesOn(s, r)
    ensures Serviceable(r)
  {
    hide WatchedInv;
  }

  /** From every reachable state where nothing is starving yet: a processor that
      falls silent is left alone while the first and the last silent call are
      less than 100 ms apart, and timed out on a safe bus from then on. */
  lemma SilenceEnds(start: Machine, steps: seq<Step>, calls: seq<ServiceInput>)
    requires Initial(start) && AllPlausible(steps) && AllSilent(calls) && calls != []
    requires var s := SupervisorRuns.Run(start, steps);
             && s.exec.active && s.site.manager.state.Running? && !s.exec.idleArmed && s.exec.starvationUs == 0
             && 0 < s.log.clock + Span(calls[0]) && LimitBeyond(s, s.log.clock + Total(calls))
    ensures var s := SupervisorRuns.Run(start, steps);
            var r := SupervisorRuns.Run(s, Services(calls));
            if Total(calls[1..]) < 100_000 then GoesOn(s, r) else EndedBy(r, TimedOut, NoBusCycle)
  {
    hide SupervisorRuns.Run; hide Initial; hide AllPlausible; hide Service; hide CycleFate; hide Inv; hide Safe; hide Services;
    Reached(start, steps);
    LifecycleInStep(start, steps);
    var s := SupervisorRuns.Run(start, steps);
    LimitUnseen(s, s.log.clock + Total(calls));
    CallJudged(s, calls[0]);
    SilentFate(s, calls[0]);
    ServiceKeeps(s, calls[0]);
    FirstCall(s, calls);
    var r := Service(s, calls[0]);
    StillServiceable(s, r);
    SilenceFrom(r, r.log.clock, calls[1..]);
  }

  // ---- what the cycle does ---------------------------------------------------------------

  lemma StopKeepsAccount(s: Machine, halt: Hardware)
    ensures StopGeneral(s, halt).site == s.site && StopGeneral(s, halt).exec.stats == s.exec.stats
  {
  }

  lemma EndedKeepsAccount(s: Machine, reason: Reason, state: State, halt: Hardware)
    ensures var r := Ended(s, reason, state, halt);
            && r.site.store == s.site.store && r.site.manager.manifest == s.site.manager.manifest && r.exec.stats == s.exec.stats
  {
    hide StopGeneral;
    StopKeepsAccount(s.(exec := s.exec.(reason := reason)), halt);
  }

  lemma HaltKeepsAccount(s: Machine, halt: Hardware)
    ensures var r := Halt(s, halt);
            && r.site.store == s.site.store && r.site.manager.manifest == s.site.manager.manifest
            && r.exec.stats == s.exec.stats.(unmapped := r.exec.stats.unmapped, invalidLane := r.exec.stats.invalidLane,
                                             noCycle := r.exec.stats.noCycle)
  {
    hide StopGeneral;
    StopKeepsAccount(s.(exec := s.exec.(idleArmed := false)), halt);
  }

  lemma EndKeepsAccount(s: Machine, now: nat, halt: Hardware)
    ensures var r := Unfinished(s, now, halt);
            && r.site.store == s.site.store && r.site.manager.manifest == s.site.manager.manifest
            && r.exec.stats == s.exec.stats.(unmapped := r.exec.stats.unmapped, invalidLane := r.exec.stats.invalidLane,
                                             noCycle := r.exec.stats.noCycle)
  {
    hide Halt; hide Ended;
    HaltKeepsAccount(s, halt);
    var x := s.exec;
    var since := if x.starvationUs == 0 then now else x.starvationUs;
    EndedKeepsAccount(s.(exec := x.(starvationUs := since), log := s.log.(clock := now)), NoBusCycle, TimedOut, halt);
    EndedKeepsAccount(s.(exec := x.(starvationUs := 0)), BusFault, Faulted, halt);
  }

  /** The statistics of a machine after a cycle, and the counts behind them. */
  predicate Accounts(s: Machine, e: BusEvent, fate: Fate, t: Tally, r: Machine)
    requires |s.site.store.bytes| == 0x40000
  {
    && (fate.Done? && e.Cycle? && e.intaN && e.iom && !e.dtr ==>
          r.exec.stats.lastDataValid && DrivesSelected(Visible(s.site), e, r.exec.stats.lastData))
    && (Counts(s.exec.stats.counters, t) ==>
          Counts(r.exec.stats.counters, if fate.Done? && e.Cycle? then TallyOf(t, e) else t))
    && (e.Cycle? ==>
          && r.exec.stats.lastAddress == e.address
          && (HasLow(r.exec.stats.lastLanes) <==> e.address % 2 == 0) && (HasHigh(r.exec.stats.lastLanes) <==> !e.bheN)
          && r.exec.stats.lastType == PinType(e))
  }

  /** The kind of a cycle by the levels of INTA#, IOM and DTR. */
  function PinType(e: BusEvent): CycleType
    requires e.Cycle?
  {
    if !e.intaN then InterruptAck else if e.address % 2 == 1 && e.bheN then Unsupported
    else if e.iom then (if e.dtr then MemWrite else MemRead)
    else if e.dtr then IoWrite else IoRead
  }

  lemma CycleAccounts(s: Machine, e: BusEvent, now: nat, t: Tally)
    requires Inv(s) && Serviceable(s) && WellFormed(e)
    ensures |s.site.store.bytes| == 0x40000
    ensures Accounts(s, e, FateOf(Visible(s.site), RAM_ADDRESSES, e, Replies(s.exec.tick, e)), t, CycleStep(s, e, now).machine)
  {
    hide Inv; hide FateOf; hide FlatNext; hide Image; hide Writable; hide Visible; hide Callbacks; hide DrivesSelected;
    hide AnswersTo; hide Replies; hide Serve; hide Counts; hide Count; hide TypeOf; hide TallyOf;
    AliveTick(s);
    VisibleIsImage(s.site);
    SameFate(Visible(s.site), RAM_ADDRESSES, s.exec, e);
    var m, io := ProcessorMemory(s.site), AnswersTo(s.exec, e);
    ServeRefines(m, s.exec.stats, e, io);
    ServeCounts(m, s.exec.stats, e, io);
    if e.Cycle? {
      ServeObserves(m, s.exec.stats, e, io);
      if Serve(m, s.exec.stats, e, io).completed && Counts(s.exec.stats.counters, t) { CountTallies(s.exec.stats.counters, t, e); }
    }
  }

  lemma CallAccounts(s: Machine, input: ServiceInput, t: Tally)
    requires Inv(s) && Serviceable(s) && !DeadlineSeen(s, s.log.clock + input.check) && WellFormed(input.event)
    ensures var r, io := Service(s, input), Replies(Polled(s, input), input.event);
            && |s.site.store.bytes| == |r.site.store.bytes| == 0x40000
            && Visible(r.site) == FlatNext(Visible(s.site), RAM_ADDRESSES, input.event, io)
            && Accounts(s, input.event, CycleFate(s, input), t, r)
  {
    hide Inv; hide PollStep; hide CycleStep; hide Unfinished; hide FateOf; hide Replies; hide Polled; hide DrivesSelected;
    hide FlatNext; hide ProcessorMemory; hide Counts; hide TallyOf; hide PinType;
    var u, e := AtCycle(s, input), input.event;
    PolledFirst(s, input);
    PolledInv(s, input);
    AliveTick(s);
    CycleSettles(u, e, u.log.clock + input.io);
    CycleFrame(u, e, u.log.clock + input.io);
    CycleAccounts(u, e, u.log.clock + input.io, t);
    var c := CycleStep(u, e, u.log.clock + input.io);
    EndKeepsAccount(c.machine, c.machine.log.clock + input.starve, input.halt);
    hide Handoff;
  }

  /** In every reachable state that is executing: the call leaves the processor
      the flat memory that the pins ask for, drives its bytes on a read, and keeps
      an account of the last cycle and of the cycles of each kind. */
  lemma ServiceMemory(start: Machine, steps: seq<Step>, input: ServiceInput, t: Tally)
    requires Initial(start) && AllPlausible(steps) && WellFormed(input.event)
    requires var s := SupervisorRuns.Run(start, steps);
             s.exec.active && s.site.manager.state.Running? && !Overdue(s, s.log.clock + input.check)
    ensures var s := SupervisorRuns.Run(start, steps);
            var r, io := Service(s, input), Replies(Polled(s, input), input.event);
            && |s.site.store.bytes| == |r.site.store.bytes| == 0x40000
            && Visible(r.site) == FlatNext(Visible(s.site), RAM_ADDRESSES, input.event, io)
            && Accounts(s, input.event, CycleFate(s, input), t, r)
  {
    hide SupervisorRuns.Run; hide Initial; hide AllPlausible; hide Service; hide Accounts; hide CycleFate; hide Inv; hide Visible; hide FlatNext;
    Executing(start, steps, input);
    CallAccounts(SupervisorRuns.Run(start, steps), input, t);
  }

  lemma Executing(start: Machine, steps: seq<Step>, input: ServiceInput)
    requires Initial(start) && AllPlausible(steps)
    requires var s := SupervisorRuns.Run(start, steps);
             s.exec.active && s.site.manager.state.Running? && !Overdue(s, s.log.clock + input.check)
    ensures var s := SupervisorRuns.Run(start, steps);
            Inv(s) && Serviceable(s) && !DeadlineSeen(s, s.log.clock + input.check)
  {
    hide SupervisorRuns.Run; hide Initial; hide AllPlausible; hide Inv;
    Reached(start, steps);
    LifecycleInStep(start, steps);
    OverdueSeen(SupervisorRuns.Run(start, steps), SupervisorRuns.Run(start, steps).log.clock + input.check);
  }

  // ---- ports and acknowledges ------------------------------------------------------------

  /** The end-of-interrupt command: an EOI if a tick is in service, and always a
      fence that takes an unaccepted request back. */
  predicate FencedAt(t: Tick, before: Log, now: nat, r: Tick, after: Log) {
    if !t.enabled then r == t && after.fence == before.fence && after.eoiAt == before.eoiAt
    else
      && after.fence == Some(before.cycles) && after.eoiAt == (if t.inService then Some(now) else before.eoiAt)
      && r.enabled && !r.asserted && !r.inService && r.pending == t.pending && r.ackPhase == t.ackPhase
      && r.eoi == Wrap32(t.eoi + if t.inService then 1 else 0)
      && r.generated == t.generated && r.nextUs == t.nextUs
  }

  /** What a cycle that completes does besides moving data, by port number. */
  predicate Affects(x: Executor, before: Log, e: BusEvent, now: nat, r: Executor, after: Log)
    requires e.Cycle?
  {
    var port, t := e.address % 0x1_0000, x.tick;
    var write := e.intaN && !e.iom && e.dtr;
    && (r.console == if write && port == 0xE9 then Print(x.console, Carried(e) % 256) else x.console)
    && (r.idleArmed == (x.idleArmed || (write && port == 0xE6 && Carried(e) == 1)))
    && (if !e.intaN then Accepts(t, r.tick)
        else if write && port == 0x20 && Carried(e) % 256 == 0x20 then FencedAt(t, before, now, r.tick, after)
        else
          && after.fence == before.fence && after.eoiAt == before.eoiAt
          && if write && port == 0xE6 && Carried(e) == 1
             then !r.tick.enabled && !r.tick.asserted && r.tick.generated == t.generated else r.tick == t)
  }

  /** The first acknowledge takes the request, the second puts it into service. */
  predicate Accepts(t: Tick, r: Tick) {
    && r.enabled == t.enabled
    && if t.ackPhase == 1
       then r.ackPhase == 0 && r.inService && !r.asserted && r.acknowledged == Wrap32(t.acknowledged + 1)
       else r.ackPhase == 1 && !r.pending && !r.asserted && !r.inService && r.delivered == Wrap32(t.delivered + 1)
  }

  lemma CallbacksAffect(x: Executor, log: Log, e: BusEvent, now: nat)
    requires e.Cycle? && e.finish.Samples? && Conserved(x.tick) && (e.intaN ==> PinSelected(e.address, e.bheN) != {})
    requires !e.intaN ==> Acceptable(x.tick)
    ensures var c := Callbacks(x, log, e, now);
            Affects(x, log, e, now, x.(tick := c.tick, idleArmed := c.idleArmed, console := c.console), c.log)
  {
    PinsDecode(e);
    hide PinSelected; hide TypeOf; hide Gap; hide Print; hide Wrap32;
    Steady(x.tick.eoi);
  }

  lemma PollKeepsPhase(s: Machine, input: ServiceInput)
    ensures var t, p := s.exec.tick, Polled(s, input);
            p.enabled == t.enabled && p.ackPhase == t.ackPhase && p.inService == t.inService && (t.asserted ==> p.asserted)
  {
    hide Wrap32; hide Expired; hide Deliverable;
  }

  /** What is left to a cycle that completes. */
  lemma DoneMeans(flat: Flat, writable: set<nat>, t: Tick, e: BusEvent)
    requires FateOf(flat, writable, e, Replies(t, e)).Done? && t.ackPhase <= 1
    ensures e.Cycle? && e.finish.Samples? && (e.intaN ==> PinSelected(e.address, e.bheN) != {}) && (!e.intaN ==> Acceptable(t))
  {
  }

  lemma SameEffects(x: Executor, b: Log, e: BusEvent, now: nat, r: Executor, a: Log, b': Log, r': Executor, a': Log)
    requires e.Cycle? && Affects(x, b, e, now, r, a)
    requires b'.fence == b.fence && b'.eoiAt == b.eoiAt && b'.cycles == b.cycles && a'.fence == a.fence && a'.eoiAt == a.eoiAt
    requires r'.tick == r.tick && r'.console == r.console && r'.idleArmed == r.idleArmed
    ensures Affects(x, b', e, now, r', a')
  {
    hide Accepts; hide Print;
  }

  lemma AckDrives(s: Machine, e: BusEvent, now: nat)
    requires Inv(s) && Serviceable(s) && e.Cycle? && !e.intaN && e.finish.Samples? && Acceptable(s.exec.tick)
    ensures var t := CycleStep(s, e, now).machine.exec.stats;
            if s.exec.tick.ackPhase == 1 then t.lastDataValid && t.lastData == 0x21 else !t.lastDataValid
  {
    hide Inv; hide Serve; hide Callbacks; hide ProcessorMemory; hide TypeOf; hide AnswersTo;
    AliveTick(s);
    PinsDecode(e);
    SameAnswers(s.exec, e);
    ServeObserves(ProcessorMemory(s.site), s.exec.stats, e, AnswersTo(s.exec, e));
  }

  /** When a call's cycle completes, how, and what the acknowledge of a tick drives. */
  lemma CallAffects(s: Machine, input: ServiceInput)
    requires Inv(s) && Serviceable(s) && !DeadlineSeen(s, s.log.clock + input.check) && WellFormed(input.event)
    ensures |s.site.store.bytes| == 0x40000
    ensures var r, e := Service(s, input), input.event;
            var now := s.log.clock + input.check + (if s.exec.idleArmed then 0 else input.poll) + input.io;
            CycleFate(s, input).Done? ==>
              && e.Cycle? && Affects(s.exec.(tick := Polled(s, input)), s.log, e, now, r.exec, r.log)
              && r.pins.intr == r.exec.tick.asserted && r.log.cycles == s.log.cycles + 1
              && (!e.intaN ==> if Polled(s, input).ackPhase == 1 then r.exec.stats.lastDataValid && r.exec.stats.lastData == 0x21
                               else !r.exec.stats.lastDataValid)
  {
    hide Inv; hide PollStep; hide Unfinished; hide FateOf; hide Replies; hide Polled; hide Callbacks; hide Affects; hide Serve;
    hide ProcessorMemory; hide AnswersTo; hide LineAfter; hide Visible; hide Acceptable; hide FlatNext; hide Conserved;
    var u, e := AtCycle(s, input), input.event;
    PolledFirst(s, input);
    PolledInv(s, input);
    AliveTick(s);
    AliveTick(u);
    var now := u.log.clock + input.io;
    CycleSettles(u, e, now);
    CycleKeeps(u, e, now);
    AliveTick(CycleStep(u, e, now).machine);
    if CycleFate(s, input).Done? {
      DoneMeans(Visible(s.site), RAM_ADDRESSES, u.exec.tick, e);
      CallbacksAffect(u.exec, u.log, e, now);
      var c, r := Callbacks(u.exec, u.log, e, now), Service(s, input);
      CallbackCycles(u.exec, u.log, e, now);
      SameEffects(u.exec, u.log, e, now, u.exec.(tick := c.tick, idleArmed := c.idleArmed, console := c.console), c.log,
                  s.log, r.exec, r.log);
      if !e.intaN { AckDrives(u, e, now); }
    }
  }

  lemma CallbackCycles(x: Executor, log: Log, e: BusEvent, now: nat)
    ensures Callbacks(x, log, e, now).log.cycles == log.cycles
  {
  }

  /** In every reachable state that is executing: a completed write to port 0xE9
      prints its byte, the command 0x20 to port 0x20 ends or fences, the value 1
      to port 0xE6 prepares idle and stops the tick, an acknowledge moves the tick
      on, and every other completed cycle leaves all of these alone. */
  lemma ServiceEffects(start: Machine, steps: seq<Step>, input: ServiceInput)
    requires Initial(start) && AllPlausible(steps) && WellFormed(input.event)
    requires var s := SupervisorRuns.Run(start, steps);
             s.exec.active && s.site.manager.state.Running? && !Overdue(s, s.log.clock + input.check)
    ensures var s, e := SupervisorRuns.Run(start, steps), input.event;
            var r, now := Service(s, input), s.log.clock + input.check + (if s.exec.idleArmed then 0 else input.poll) + input.io;
            && |s.site.store.bytes| == 0x40000
            && (CycleFate(s, input).Done? ==>
                  && e.Cycle? && Affects(s.exec.(tick := Polled(s, input)), s.log, e, now, r.exec, r.log)
                  && r.pins.intr == r.exec.tick.asserted && r.log.cycles == s.log.cycles + 1)
  {
    hide SupervisorRuns.Run; hide Initial; hide AllPlausible; hide Service; hide Affects; hide CycleFate; hide Inv; hide Polled;
    Executing(start, steps, input);
    CallAffects(SupervisorRuns.Run(start, steps), input);
  }

  /** From every reachable state with INTR up: of two acknowledge cycles the first
      lowers INTR and drives nothing, the second drives vector 0x21, and then the
      tick is in service. */
  lemma AcknowledgePair(start: Machine, steps: seq<Step>, first: ServiceInput, second: ServiceInput)
    requires Initial(start) && AllPlausible(steps) && IsAck(first.event) && IsAck(second.event)
    requires var s := SupervisorRuns.Run(start, steps);
             && s.exec.active && s.site.manager.state.Running? && s.pins.intr && !Overdue(s, s.log.clock + first.check)
             && var r := Service(s, first); !Overdue(r, r.log.clock + second.check)
    ensures var s := SupervisorRuns.Run(start, steps);
            var r := Service(s, first);
            var t := Service(r, second);
            && GoesOn(s, r) && !r.pins.intr && !r.exec.stats.lastDataValid && r.exec.tick.ackPhase == 1
            && GoesOn(r, t) && !t.pins.intr && t.exec.stats.lastDataValid && t.exec.stats.lastData == 0x21 && t.exec.tick.inService
  {
    hide SupervisorRuns.Run; hide Initial; hide AllPlausible; hide Service; hide Inv; hide Polled; hide FateOf; hide Visible; hide Replies;
    hide Wrap32;
    Executing(start, steps, first);
    var s := SupervisorRuns.Run(start, steps);
    RaisedLine(s);
    RamFull(s);
    PollKeepsPhase(s, first);
    AckDone(s, first);
    CallJudged(s, first);
    CallAffects(s, first);
    ServiceKeeps(s, first);
    var r := Service(s, first);
    StillServiceable(s, r);
    OverdueSeen(r, r.log.clock + second.check);
    RaisedLine(r);
    RamFull(r);
    PollKeepsPhase(r, second);
    AckDone(r, second);
    CallJudged(r, second);
    CallAffects(r, second);
  }

  predicate IsAck(e: BusEvent) { WellFormed(e) && e.Cycle? && !e.intaN && e.finish.Samples? }

  /** A raised line is a pending request of a running source. */
  lemma RaisedLine(s: Machine)
    requires Inv(s) && Serviceable(s)
    ensures s.exec.tick.enabled ==> !s.exec.idleArmed
    ensures s.pins.intr ==> s.exec.tick.enabled && s.exec.tick.asserted && s.exec.tick.ackPhase == 0
  {
    hide Gap; hide SiteInv; hide Gated; hide StatsInv;
  }

  lemma AckDone(s: Machine, input: ServiceInput)
    requires IsAck(input.event) && |s.site.store.bytes| == 0x40000
    requires var t := Polled(s, input); t.enabled && (t.ackPhase == 1 || (t.ackPhase == 0 && t.asserted))
    ensures CycleFate(s, input).Done?
  {
    hide Polled; hide Visible;
  }

  /** In every reachable state that is executing, on the log alone: exactly when
      INTR is up after the poll of a call; a silent call leaves the line there. */
  lemma TickDelivered(start: Machine, steps: seq<Step>, input: ServiceInput)
    requires Initial(start) && AllPlausible(steps)
    requires var s := SupervisorRuns.Run(start, steps);
             && s.exec.active && s.site.manager.state.Running? && !Overdue(s, s.log.clock + input.check)
             && s.exec.tick.enabled
    ensures var s := SupervisorRuns.Run(start, steps);
            var r, polled := Service(s, input), Polled(s, input);
            && s.log.started == s.exec.startedUs
            && Delivers(Watched(s.exec.tick, s.log), s.log.clock + input.check + input.poll, polled)
            && (input.event.Silent? && r.exec.active ==> r.pins.intr == polled.asserted)
  {
    hide SupervisorRuns.Run; hide Initial; hide AllPlausible; hide Service; hide Inv; hide Delivers; hide Polled;
    Executing(start, steps, input);
    var s := SupervisorRuns.Run(start, steps);
    RaisedLine(s);
    TickWatched(s);
    PollDelivers(Watched(s.exec.tick, s.log), s.log.clock + input.check + input.poll);
    PollsNow(s, input);
    if input.event.Silent? { SilentLine(s, input); }
  }

  lemma TickWatched(s: Machine)
    requires Inv(s) && Serviceable(s)
    ensures s.log.started == s.exec.startedUs && WatchedInv(Watched(s.exec.tick, s.log))
    ensures s.exec.tick.enabled ==> s.exec.tick.nextUs != 0
  {
    hide WatchedInv; hide SiteInv; hide StatsInv;
  }

  lemma PollsNow(s: Machine, input: ServiceInput)
    requires !s.exec.idleArmed
    ensures Polled(s, input) == Poll(Watched(s.exec.tick, s.log), s.log.clock + input.check + input.poll).tick
  {
  }

  lemma SilentLine(s: Machine, input: ServiceInput)
    requires Inv(s) && Serviceable(s) && !DeadlineSeen(s, s.log.clock + input.check) && input.event.Silent? && !s.exec.idleArmed
    ensures var r := Service(s, input);
            r.exec.active ==> r.pins.intr == Polled(s, input).asserted
  {
    hide Inv; hide PollStep; hide Polled; hide Ended; hide Halt;
    var u := AtCycle(s, input);
    PolledFirst(s, input);
    PolledInv(s, input);
    AliveTick(u);
    EndedStops(AtVerdict(s, input).machine, AtVerdict(s, input).machine.log.clock + input.starve, input.halt);
  }

  lemma EndedStops(s: Machine, now: nat, halt: Hardware)
    requires s.exec.active && !HaltIndication(s.exec)
    ensures var r := Unfinished(s, now, halt);
            r.exec.active ==> r.pins == s.pins
  {
    hide Flush; hide Quiesced; hide Halted;
  }
}
