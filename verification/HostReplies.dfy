/** Replies of the timeout and diagnostics services, and the Host decoders that
    must accept every one of them. */
module HostReplies {
  import opened Words
  import opened Protocol
  import opened WorkloadManager
  import opened LaneBus
  import opened PeriodicTick
  import opened ProcessorBus
  import opened MemoryService
  import opened Supervisor
  import opened SupervisorRuns

  // ---- the timeout service --------------------------------------------------------------------

  function RemainingMs(e: Executor, now: nat): nat {
    if e.deadlineUs > now then (e.deadlineUs - now + 999) / 1000 else 0
  }

  function TimeoutWords(e: Executor, workloadId: u32, now: nat): seq<u32> {
    [e.timeoutMs, Wrap32(RemainingMs(e, now)), workloadId, e.diagBoot, if e.deadlineUs != 0 then 1 else 0,
     0, 0, 0, 0, 0, 0, 0, 0]
  }

  /** The reply of `rp86_workload_executor_timeout_request`. */
  function TimeoutReply(s: Machine, r: Message, later: nat): Message {
    var status := TimeoutRefusal(s, r);
    if status != OK then Reply(r, TIMEOUT_RESULT, status, [])
    else
      var t := Timeout(s, r, later);
      Reply(r, TIMEOUT_RESULT, OK, PackWords(TimeoutWords(t.exec, t.site.manager.workloadId, t.log.clock)))
  }

  datatype WorkloadTimeout = WorkloadTimeout(timeoutMs: u32, remainingMs: nat, workloadId: u32, bootId: u32, armed: u32)

  predicate TimeoutConsistent(t: WorkloadTimeout) {
    && t.timeoutMs <= TIMEOUT_MAX_MS && t.armed <= 1 && t.remainingMs <= t.timeoutMs
    && (t.armed == 0 ==> t.remainingMs == 0)
    && (t.armed == 1 ==> t.timeoutMs != 0 && t.workloadId != 0 && t.bootId != 0)
  }

  /** `WorkloadTimeout.from_reply`. */
  function DecodeTimeout(reply: Message, request: Message): Option<WorkloadTimeout>
    requires |request.payload| == 8
  {
    if reply.kind != TIMEOUT_RESULT || reply.sequence != request.sequence || reply.status != OK || |reply.payload| != 52
    then None
    else
      var w := UnpackWords(reply.payload, 13);
      var t := WorkloadTimeout(w[0], w[1], w[2], w[3], w[4]);
      if (exists i :: 5 <= i < 13 && w[i] != 0) || !TimeoutConsistent(t) then None
      else if Load32(request.payload, 0) == 1 && t.timeoutMs != Load32(request.payload, 4) then None
      else Some(t)
  }

  /** The milliseconds that cover a time left, and none to spare; none if none is left. */
  predicate RoundedUp(ms: nat, leftUs: int) {
    if leftUs <= 0 then ms == 0 else 1000 * (ms - 1) < leftUs <= 1000 * ms
  }

  lemma RemainingBounded(e: Executor, now: nat)
    requires e.deadlineUs == Deadline(e) && (e.deadlineUs != 0 ==> e.startedUs <= now)
    ensures RemainingMs(e, now) <= e.timeoutMs && (e.deadlineUs == 0 ==> RemainingMs(e, now) == 0)
    ensures Wrap32(RemainingMs(e, now)) == RemainingMs(e, now)
    ensures RoundedUp(RemainingMs(e, now), if e.deadlineUs == 0 then 0 else e.deadlineUs - now)
  {
    if e.deadlineUs > now {
      assert e.deadlineUs - now <= 1000 * e.timeoutMs;
      assert (1000 * e.timeoutMs + 999) / 1000 == e.timeoutMs;
    }
  }

  /** In every reachable state, whatever the request: a reply that says OK is
      one the Host accepts, and it decodes to the state of the limit, with the time
      left rounded up to whole milliseconds. */
  lemma TimeoutReplyAccepted(start: Machine, steps: seq<Step>, r: Message, later: nat)
    requires Initial(start) && AllPlausible(steps)
    ensures var s := SupervisorRuns.Run(start, steps);
            var reply := TimeoutReply(s, r, later);
            reply.status == OK ==>
              var t := Timeout(s, r, later);
              var e := t.exec;
              && |r.payload| == 8
              && DecodeTimeout(reply, r) == Some(WorkloadTimeout(
                   e.timeoutMs, RemainingMs(e, t.log.clock), t.site.manager.workloadId, e.diagBoot,
                   if e.active && !e.idle && e.timeoutMs != 0 then 1 else 0))
              && RoundedUp(RemainingMs(e, t.log.clock),
                           if e.active && !e.idle && e.timeoutMs != 0 then e.startedUs + 1000 * e.timeoutMs - t.log.clock else 0)
  {
    hide SupervisorRuns.Run; hide Inv; hide Timeout; hide Initial; hide AllPlausible;
    Reached(start, steps);
    var s := SupervisorRuns.Run(start, steps);
    TimeoutKeeps(s, r, later);
    LimitFacts(Timeout(s, r, later));
    if TimeoutRefusal(s, r) == OK { TimeoutDecodes(s, r, later); }
  }

  /** The facts about the limit that the decoder relies on. */
  lemma LimitFacts(s: Machine)
    requires Inv(s)
    ensures var e := s.exec;
            && e.timeoutMs <= TIMEOUT_MAX_MS
            && RemainingMs(e, s.log.clock) <= e.timeoutMs
            && (e.deadlineUs == 0 ==> RemainingMs(e, s.log.clock) == 0)
            && Wrap32(RemainingMs(e, s.log.clock)) == RemainingMs(e, s.log.clock)
            && (e.deadlineUs != 0 <==> e.active && !e.idle && e.timeoutMs != 0)
            && (e.deadlineUs != 0 ==> e.deadlineUs == e.startedUs + 1000 * e.timeoutMs)
            && RoundedUp(RemainingMs(e, s.log.clock), if e.deadlineUs == 0 then 0 else e.deadlineUs - s.log.clock)
            && (e.deadlineUs != 0 ==> s.site.manager.workloadId != 0 && e.diagBoot != 0)
  {
    if s.exec.active { AliveBusy(s); }
    RemainingBounded(s.exec, s.log.clock);
    hide Alive; hide RemainingMs; hide Wrap32;
  }

  lemma AppliedValue(s: Machine, r: Message, later: nat)
    requires TimeoutRefusal(s, r) == OK && Load32(r.payload, 0) == 1
    ensures Timeout(s, r, later).exec.timeoutMs == Load32(r.payload, 4)
  {
    hide Load32;
  }

  lemma TimeoutDecodes(s: Machine, r: Message, later: nat)
    requires Inv(s) && TimeoutRefusal(s, r) == OK && Inv(Timeout(s, r, later))
    ensures var t := Timeout(s, r, later);
            && |r.payload| == 8
            && DecodeTimeout(TimeoutReply(s, r, later), r) == Some(WorkloadTimeout(
                 t.exec.timeoutMs, RemainingMs(t.exec, t.log.clock), t.site.manager.workloadId, t.exec.diagBoot,
                 if t.exec.active && !t.exec.idle && t.exec.timeoutMs != 0 then 1 else 0))
  {
    hide Inv; hide Load32; hide RemainingMs; hide Wrap32;
    var t := Timeout(s, r, later);
    LimitFacts(t);
    if Load32(r.payload, 0) == 1 { AppliedValue(s, r, later); }
    var words := TimeoutWords(t.exec, t.site.manager.workloadId, t.log.clock);
    UnpackOfPack(words);
    hide Timeout; hide PackWords; hide UnpackWords;
  }

  /** The answer to a timeout request and what it changes: a SET takes any limit
      up to a day, unless the prepared calculator is running and it is not zero. */
  predicate TimeoutVerdict(s: Machine, r: Message, later: nat, status: u16, t: Machine) {
    var clocked := s.(log := s.log.(clock := s.log.clock + later));
    if r.version != 1 then status == BAD_VERSION && t == s
    else if |r.payload| != 8 || r.status != 0 || r.flags != 0 then status == BAD_LENGTH && t == s
    else
      var operation, value, e := Load32(r.payload, 0), Load32(r.payload, 4), s.exec;
      if operation == 0 && value == 0 then status == OK && t == clocked
      else if operation == 1 && value <= 86_400_000 then
        if value != 0 && s.site.manager.state.Running? && !e.active then status == BAD_STATE && t == s
        else
          && status == OK
          && t == clocked.(exec := e.(timeoutMs := value,
                                      deadlineUs := if value != 0 && e.active && !e.idle then e.startedUs + 1000 * value else 0))
      else status == BAD_LENGTH && t == s
  }

  /** Every timeout request, in every state. */
  lemma TimeoutAnswers(s: Machine, r: Message, later: nat)
    ensures TimeoutVerdict(s, r, later, TimeoutReply(s, r, later).status, SupervisorRuns.Next(s, TimeoutStep(r, later)))
  {
    hide Load32; hide PackWords; hide TimeoutWords;
  }

  // ---- the diagnostics service ---------------------------------------------------------------------

  function StateCode(s: State): u32 {
    match s
    case Empty => 0
    case Receiving => 1
    case Staged => 2
    case Running => 3
    case Stopped => 4
    case Completed => 5
    case Faulted => 6
    case TimedOut => 7
  }

  function ReasonCode(r: Reason): u32 {
    match r
    case NoReason => 0
    case StopRequested => 1
    case NativeHlt => 2
    case NoBusCycle => 3
    case BusFault => 4
    case StartFailure => 5
    case ExecutionDeadline => 6
  }

  function TypeCode(t: CycleType): u32 {
    match t
    case MemRead => 0
    case MemWrite => 1
    case IoRead => 2
    case IoWrite => 3
    case InterruptAck => 4
    case Unsupported => 5
  }

  function LanesCode(l: Lanes): u32 {
    match l
    case NoLanes => 0
    case Low => 1
    case High => 2
    case Word => 3
  }

  /** The RP86_DIAGNOSTICS flags, bit 0 first. */
  function Flags(t: Stats): seq<bool> {
    [t.seen, t.seen && t.lastDataValid, t.noCycle, t.unmapped, t.invalidLane, t.padMismatch, t.clockFailure, t.ackFlag]
  }

  function FlagWord(t: Stats): (w: u32)
    ensures w <= 0xFF
  {
    ValueBound(Flags(t));
    Pow2Of32();
    Value(Flags(t))
  }

  function DiagnosticsWords(s: Machine): seq<u32> {
    var e, t := s.exec, s.exec.stats;
    [e.diagWorkload, e.diagBoot, StateCode(s.site.manager.state), ReasonCode(e.reason), t.counters.cycles,
     if t.seen then Wrap32(t.lastAddress) else 0,
     if t.seen && t.lastDataValid then t.lastData else 0,
     if t.seen then TypeCode(t.lastType) else 0,
     if t.seen then LanesCode(t.lastLanes) else 0,
     FlagWord(t), 0, 0, 0]
  }

  function DiagnosticsStatus(s: Machine, r: Message): u16 {
    if r.version != VERSION then BAD_VERSION
    else if |r.payload| != 4 || r.flags != 0 || r.status != OK then BAD_LENGTH
    else
      var m, id := s.site.manager, Load32(r.payload, 0);
      if id != 0 && id != m.workloadId then BAD_WORKLOAD
      else if (s.exec.active && !s.exec.idle) || m.state.Running? then BAD_STATE
      else if StateCode(m.state) < 4 || s.exec.diagWorkload == 0 || s.exec.diagWorkload != m.workloadId
      then SERVICE_UNAVAILABLE
      else OK
  }

  /** `rp86_workload_executor_diagnostics`. */
  function DiagnosticsReply(s: Machine, r: Message): Message {
    var status := DiagnosticsStatus(s, r);
    Reply(r, DIAGNOSTICS_RESULT, status, if status == OK then PackWords(DiagnosticsWords(s)) else [])
  }

  datatype BusDiagnostics = BusDiagnostics(words: seq<u32>)

  /** `BusDiagnostics.from_reply`: its tests, over the thirteen words. */
  function DecodeDiagnostics(reply: Message, request: Message): Option<BusDiagnostics>
    requires |request.payload| == 4
  {
    if reply.kind != DIAGNOSTICS_RESULT || reply.sequence != request.sequence || reply.status != OK || |reply.payload| != 52
    then None
    else
      var w := UnpackWords(reply.payload, 13);
      var expected := Load32(request.payload, 0);
      var cycleValid, dataValid := w[9] % 2 == 1, w[9] / 2 % 2 == 1;
      if w[10] != 0 || w[11] != 0 || w[12] != 0 then None
      else if w[0] == 0 || (expected != 0 && w[0] != expected) then None
      else if w[2] !in {4, 5, 6, 7} || w[3] > 6 || w[9] > 0xFF then None
      else if cycleValid && (w[7] > 5 || w[5] > 0xFFFFF || w[8] > 3) then None
      else if !cycleValid && dataValid then None
      else if w[6] > 0xFFFF then None
      else Some(BusDiagnostics(w[..10]))
  }

  lemma FlagBits(t: Stats)
    ensures forall i :: 0 <= i < 8 ==> Bit(FlagWord(t), i) == Flags(t)[i]
    ensures FlagWord(t) % 2 == 1 <==> t.seen
    ensures FlagWord(t) / 2 % 2 == 1 <==> t.seen && t.lastDataValid
  {
    hide Value;
    var bits := Flags(t);
    forall i | 0 <= i < 8
      ensures Bit(FlagWord(t), i) == bits[i]
    {
      BitOfValue(bits, i);
    }
    assert Bit(FlagWord(t), 0) == bits[0] && Bit(FlagWord(t), 1) == bits[1];
  }

  lemma LastCycleFits(s: Machine)
    requires Inv(s)
    ensures var t := s.exec.stats;
            t.seen ==> Wrap32(t.lastAddress) <= 0xFFFFF && (t.lastDataValid ==> t.lastData <= 0xFFFF)
  {
    hide Alive; hide Wrap32; hide SiteInv; hide Deadline; hide Resting;
    Wrap32Small(s.exec.stats.lastAddress);
  }

  lemma DiagnosticsDecodes(s: Machine, r: Message)
    requires Inv(s) && DiagnosticsStatus(s, r) == OK
    ensures |r.payload| == 4
    ensures DecodeDiagnostics(DiagnosticsReply(s, r), r) == Some(BusDiagnostics(DiagnosticsWords(s)[..10]))
  {
    hide FlagWord; hide PackWords; hide UnpackWords; hide Load32; hide Wrap32; hide Inv;
    var words := DiagnosticsWords(s);
    UnpackOfPack(words);
    FlagBits(s.exec.stats);
    LastCycleFits(s);
  }

  /** In every reachable state: staging a new workload leaves no trace of the last
      execution. No diagnostics are handed out, no output and no PASS is
      reported, and no cycle is counted. */
  lemma StagedIsClean(start: Machine, steps: seq<Step>, r: Message, q: Message)
    requires Initial(start) && AllPlausible(steps)
    requires r.kind == WORKLOAD_COMMIT && HandleUpload(SupervisorRuns.Run(start, steps).site, r).status == OK
    ensures var t := SupervisorRuns.Next(SupervisorRuns.Run(start, steps), UploadStep(r));
            && DiagnosticsReply(t, q).status != OK && DiagnosticsReply(t, q).payload == []
            && t.exec.console.output == [] && !t.exec.console.pass && !t.exec.console.any
            && t.exec.reason.NoReason? && t.exec.stats.counters.cycles == 0 && !t.exec.active
  {
    hide SupervisorRuns.Run; hide Inv; hide Initial; hide AllPlausible; hide HandleUpload; hide Load32;
    Reached(start, steps);
    var s := SupervisorRuns.Run(start, steps);
    CommitNotBusy(s.site, r);
    NotActive(s);
  }

  lemma CommitNotBusy(site: Site, r: Message)
    requires r.kind == WORKLOAD_COMMIT && HandleUpload(site, r).status == OK
    ensures !Busy(site.manager)
  {
    hide Decode;
  }

  /** In every reachable state: an OK diagnostics reply is one the Host accepts,
      and it describes an executor that has come to rest. */
  lemma DiagnosticsReplyAccepted(start: Machine, steps: seq<Step>, r: Message)
    requires Initial(start) && AllPlausible(steps)
    ensures var s := SupervisorRuns.Run(start, steps);
            DiagnosticsReply(s, r).status == OK ==>
              && |r.payload| == 4
              && DecodeDiagnostics(DiagnosticsReply(s, r), r) == Some(BusDiagnostics(DiagnosticsWords(s)[..10]))
              && !s.site.manager.state.Running? && (s.exec.active ==> s.exec.idle)
  {
    hide SupervisorRuns.Run; hide Inv; hide Initial; hide AllPlausible; hide DecodeDiagnostics; hide DiagnosticsWords;
    Reached(start, steps);
    var s := SupervisorRuns.Run(start, steps);
    if DiagnosticsStatus(s, r) == OK { DiagnosticsDecodes(s, r); }
  }

  // ---- the words of a diagnostics reply, by the numbers of the protocol -----------------------------

  predicate SaysState(w: u32, state: State) {
    && 4 <= w <= 7 && (w == 4 <==> state.Stopped?) && (w == 5 <==> state.Completed?)
    && (w == 6 <==> state.Faulted?) && (w == 7 <==> state.TimedOut?)
  }

  predicate SaysReason(w: u32, reason: Reason) {
    && w <= 6 && (w == 0 <==> reason.NoReason?) && (w == 1 <==> reason.StopRequested?) && (w == 2 <==> reason.NativeHlt?)
    && (w == 3 <==> reason.NoBusCycle?) && (w == 4 <==> reason.BusFault?) && (w == 5 <==> reason.StartFailure?)
    && (w == 6 <==> reason.ExecutionDeadline?)
  }

  predicate SaysCycle(kind: u32, lanes: u32, t: Stats) {
    && kind <= 5 && (kind == 0 <==> t.lastType.MemRead?) && (kind == 1 <==> t.lastType.MemWrite?)
    && (kind == 2 <==> t.lastType.IoRead?) && (kind == 3 <==> t.lastType.IoWrite?)
    && (kind == 4 <==> t.lastType.InterruptAck?) && (kind == 5 <==> t.lastType.Unsupported?)
    && lanes < 4 && (lanes % 2 == 1 <==> HasLow(t.lastLanes)) && (lanes / 2 == 1 <==> HasHigh(t.lastLanes))
  }

  predicate SaysFlags(w: u32, t: Stats) {
    && w < 256 && (Bit(w, 0) <==> t.seen) && (Bit(w, 1) <==> t.seen && t.lastDataValid) && (Bit(w, 2) <==> t.noCycle)
    && (Bit(w, 3) <==> t.unmapped) && (Bit(w, 4) <==> t.invalidLane) && (Bit(w, 5) <==> t.padMismatch)
    && (Bit(w, 6) <==> t.clockFailure) && (Bit(w, 7) <==> t.ackFlag)
  }

  predicate Describes(w: seq<u32>, s: Machine)
    requires |w| == 10
  {
    var e, t := s.exec, s.exec.stats;
    && w[0] == s.site.manager.workloadId && w[1] == e.diagBoot && w[4] == t.counters.cycles
    && SaysState(w[2], s.site.manager.state) && SaysReason(w[3], e.reason) && SaysFlags(w[9], t)
    && (t.seen ==> w[5] == t.lastAddress < 0x10_0000 && SaysCycle(w[7], w[8], t) && (t.lastDataValid ==> w[6] == t.lastData))
  }

  lemma CodesSay(s: Machine)
    ensures StateCode(s.site.manager.state) >= 4 ==> SaysState(StateCode(s.site.manager.state), s.site.manager.state)
    ensures SaysReason(ReasonCode(s.exec.reason), s.exec.reason)
    ensures SaysCycle(TypeCode(s.exec.stats.lastType), LanesCode(s.exec.stats.lastLanes), s.exec.stats)
  {
  }

  lemma FlagsSay(t: Stats)
    ensures SaysFlags(FlagWord(t), t)
  {
    hide FlagWord; hide Bit;
    FlagBits(t);
  }

  lemma WordsDescribe(s: Machine, r: Message)
    requires Inv(s) && DiagnosticsStatus(s, r) == OK
    ensures Describes(DiagnosticsWords(s)[..10], s)
  {
    hide FlagWord; hide Inv; hide Load32; hide Wrap32; hide SaysFlags; hide SaysState; hide SaysReason; hide SaysCycle;
    hide StateCode; hide ReasonCode; hide TypeCode; hide LanesCode;
    CodesSay(s);
    FlagsSay(s.exec.stats);
    LastAddressKept(s);
  }

  lemma LastAddressKept(s: Machine)
    requires Inv(s)
    ensures Wrap32(s.exec.stats.lastAddress) == s.exec.stats.lastAddress < 0x10_0000
  {
    hide Alive; hide SiteInv; hide Deadline;
  }

  /** In every reachable state: what the Host reads in an OK diagnostics reply is
      the lifecycle, the reason, the count and the last cycle of the executor. */
  lemma DiagnosticsMean(start: Machine, steps: seq<Step>, r: Message)
    requires Initial(start) && AllPlausible(steps)
    requires DiagnosticsReply(SupervisorRuns.Run(start, steps), r).status == OK
    ensures |r.payload| == 4
    ensures var s := SupervisorRuns.Run(start, steps);
            var d := DecodeDiagnostics(DiagnosticsReply(s, r), r);
            d.Some? && |d.value.words| == 10 && Describes(d.value.words, s)
  {
    hide SupervisorRuns.Run; hide Inv; hide Initial; hide AllPlausible; hide DecodeDiagnostics; hide Describes;
    DiagnosticsReplyAccepted(start, steps, r);
    Reached(start, steps);
    WordsDescribe(SupervisorRuns.Run(start, steps), r);
  }

  // ---- when there are diagnostics --------------------------------------------------------------------

  /** A request the service has to answer about this workload. */
  predicate AsksAbout(r: Message, workloadId: u32) {
    && r.version == 1 && r.flags == 0 && r.status == 0 && |r.payload| == 4
    && (Load32(r.payload, 0) == 0 || Load32(r.payload, 0) == workloadId)
  }

  lemma StopSame(s: Machine, halt: Hardware)
    ensures StopGeneral(s, halt).exec.diagWorkload == s.exec.diagWorkload && StopGeneral(s, halt).site == s.site
  {
  }

  lemma EndedSame(s: Machine, reason: Reason, state: State, halt: Hardware)
    ensures var t := Ended(s, reason, state, halt);
            && t.exec.diagWorkload == s.exec.diagWorkload && t.site.manager == s.site.manager.(state := state)
  {
    hide StopGeneral;
    StopSame(s.(exec := s.exec.(reason := reason)), halt);
  }

  lemma UnfinishedSame(s: Machine, now: nat, halt: Hardware)
    requires s.site.manager.state.Running?
    ensures var t := Unfinished(s, now, halt);
            t.exec.diagWorkload == s.exec.diagWorkload && t.site.manager.workloadId == s.site.manager.workloadId && After(t.site.manager.state)
  {
    hide StopGeneral; hide Ended;
    var x := s.exec;
    StopSame(s.(exec := x.(idleArmed := false)), halt);
    EndedSame(s.(exec := x.(starvationUs := if x.starvationUs == 0 then now else x.starvationUs), log := s.log.(clock := now)),
              NoBusCycle, TimedOut, halt);
    EndedSame(s.(exec := x.(starvationUs := 0)), BusFault, Faulted, halt);
  }

  lemma CycledSame(s: Machine, input: ServiceInput)
    ensures var c := AtVerdict(s, input).machine;
            c.exec.diagWorkload == s.exec.diagWorkload && c.site.manager == s.site.manager
  {
    hide Callbacks; hide Serve; hide AnswersTo; hide Poll; hide LineAfter;
  }

  /** The states an execution can be in or come to. */
  predicate After(state: State) {
    state.Running? || state.Stopped? || state.Completed? || state.Faulted? || state.TimedOut?
  }

  lemma ServiceSame(s: Machine, input: ServiceInput)
    requires s.site.manager.state.Running? || !Serviceable(s)
    requires After(s.site.manager.state)
    ensures var t := Service(s, input);
            t.exec.diagWorkload == s.exec.diagWorkload && t.site.manager.workloadId == s.site.manager.workloadId && After(t.site.manager.state)
  {
    hide AtVerdict; hide Unfinished; hide Ended;
    CycledSame(s, input);
    EndedSame(s.(log := s.log.(clock := s.log.clock + input.check)), ExecutionDeadline, TimedOut, input.halt);
    var c := AtVerdict(s, input).machine;
    if c.site.manager.state.Running? { UnfinishedSame(c, c.log.clock + input.starve, input.halt); }
  }

  lemma BootSame(s: Machine, input: StartInput)
    ensures var t := Boot(s, input).machine;
            t.exec.diagWorkload == s.exec.diagWorkload && t.site.manager == s.site.manager
  {
    hide InitMailbox; hide NextId; hide AfterReset;
  }

  lemma GeneralSame(s: Machine, input: StartInput)
    ensures var t := StartGeneral(s, input).machine;
            t.exec.diagWorkload == s.site.manager.workloadId && t.site.manager == s.site.manager
  {
    hide Boot; hide ReachesStepped;
    BootSame(TickReset(PrepareBus(Attempt(s), input.clock).machine), input);
  }

  lemma StartSame(s: Machine, calculator: bool, input: ControlInput)
    requires s.exec.diagWorkload == s.site.manager.workloadId && s.site.manager.state.Running?
    ensures var t := StartNow(s, calculator, input).machine;
            t.exec.diagWorkload == t.site.manager.workloadId == s.site.manager.workloadId && After(t.site.manager.state)
  {
    hide StartGeneral; hide NextId;
    GeneralSame(s, input.start);
  }

  lemma ControlSame(s: Machine, op: Operation, id: u32, input: ControlInput)
    requires s.exec.diagWorkload == s.site.manager.workloadId && After(s.site.manager.state)
    ensures var t := Control(s, op, id, input).machine;
            t.exec.diagWorkload == t.site.manager.workloadId == s.site.manager.workloadId && After(t.site.manager.state)
  {
    hide StartNow; hide StopGeneral; hide IsCalculator; hide RunAllowed; hide RestartAllowed; hide StopAllowed;
    var t := WithState(s, Running);
    StopSame(t, input.halt);
    StopSame(WithState(s, State.Stopped), input.halt);
    StartSame(t, IsCalculator(s.site), input);
    StartSame(StopGeneral(t, input.halt), IsCalculator(s.site), input);
  }

  lemma StepSame(s: Machine, step: Step)
    requires Inv(s) && s.exec.active && Plausible(step)
    ensures var t := SupervisorRuns.Next(s, step);
            t.exec.diagWorkload == t.site.manager.workloadId != 0 && After(t.site.manager.state)
  {
    hide Control; hide Service; hide Upload; hide Dispatch; hide TimeoutRefusal; hide Inv;
    ActiveFacts(s);
    match step
    case UploadStep(r) => UploadKeeps(s, r);
    case ControlStep(op, id, input) => ControlSame(s, op, id, input);
    case MemoryStep(r) =>
    case TimeoutStep(r, later) =>
    case ServiceStep(input) => ServiceSame(s, input);
    case PreparedRound(pins) =>
  }

  lemma ActiveFacts(s: Machine)
    requires Inv(s) && s.exec.active
    ensures s.exec.diagWorkload == s.site.manager.workloadId != 0 && After(s.site.manager.state)
    ensures s.site.manager.state.Running? || !Serviceable(s)
  {
    hide WatchedInv; hide SiteInv; hide StatsInv;
  }

  /** Whatever step takes a reachable machine out of an execution, or ends it in
      place: the diagnostics of that execution are there for the asking. */
  lemma DiagnosticsAfterwards(start: Machine, steps: seq<Step>, step: Step, r: Message)
    requires Initial(start) && AllPlausible(steps) && Plausible(step) && SupervisorRuns.Run(start, steps).exec.active
    requires var t := SupervisorRuns.Next(SupervisorRuns.Run(start, steps), step);
             !t.site.manager.state.Running? && AsksAbout(r, t.site.manager.workloadId)
    ensures DiagnosticsReply(SupervisorRuns.Next(SupervisorRuns.Run(start, steps), step), r).status == OK
  {
    hide SupervisorRuns.Run; hide SupervisorRuns.Next; hide Inv; hide Initial; hide AllPlausible; hide Load32; hide PackWords;
    hide DiagnosticsWords;
    Reached(start, steps);
    var s := SupervisorRuns.Run(start, steps);
    NextKeeps(s, step);
    StepSame(s, step);
    IdleOrDone(SupervisorRuns.Next(s, step));
  }

  lemma IdleOrDone(s: Machine)
    requires Inv(s) && !s.site.manager.state.Running?
    ensures !(s.exec.active && !s.exec.idle)
  {
    hide WatchedInv; hide SiteInv; hide StatsInv;
  }
}
