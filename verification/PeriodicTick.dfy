/** The 100 Hz tick source of the executor: wall-clock generation, the single
    pending request, the two-cycle interrupt acknowledge, the end-of-interrupt
    write that doubles as a scheduler fence, and the two recovery gates. */
module PeriodicTick {
  import opened Words

  const PERIOD_US: nat := 10000
  const RECOVERY_CYCLES: nat := 64
  const TICK_VECTOR: byte := 0x21
  const HALF32: int := 0x8000_0000

  datatype Tick = Tick(
    enabled: bool, pending: bool, inService: bool, asserted: bool, ackPhase: nat,
    nextUs: nat, notBeforeUs: nat, notBeforeCycle: u32,
    generated: u32, delivered: u32, acknowledged: u32, delayed: u32, coalesced: u32, eoi: u32)

  /** `cycle_deadline_reached`: zero means open, otherwise a signed difference
      of two 32-bit counters. */
  predicate CycleReached(current: u32, deadline: u32) {
    deadline == 0 || (current - deadline) % W32 < HALF32
  }

  // ---- the operations -------------------------------------------------------

  function Fresh(enabled: bool): Tick {
    Tick(enabled, false, false, false, 0, 0, 0, 0, 0, 0, 0, 0, 0, 0)
  }

  function Armed(t: Tick, started: nat): Tick {
    if t.enabled then t.(nextUs := started + PERIOD_US) else t
  }

  /** How many periods have expired by `now`. */
  function Expired(t: Tick, now: nat): nat {
    if now < t.nextUs then 0 else 1 + (now - t.nextUs) / PERIOD_US
  }

  function Generate(t: Tick, now: nat): Tick {
    var n := Expired(t, now);
    if n == 0 then t
    else
      var g := t.(nextUs := t.nextUs + n * PERIOD_US, generated := Wrap32(t.generated + n));
      if t.ackPhase != 0 || t.inService
      then g.(delayed := Wrap32(t.delayed + n), coalesced := Wrap32(t.coalesced + n))
      else if !t.pending
      then g.(pending := true, coalesced := Wrap32(t.coalesced + (n - 1)))
      else g.(coalesced := Wrap32(t.coalesced + n))
  }

  predicate Deliverable(t: Tick, now: nat, cycles: u32) {
    && t.pending && !t.asserted && t.ackPhase == 0 && !t.inService
    && (t.notBeforeUs == 0 || now >= t.notBeforeUs)
    && CycleReached(cycles, t.notBeforeCycle)
  }

  function Update(t: Tick, now: nat, cycles: u32): Tick {
    if !t.enabled || t.nextUs == 0 then t
    else
      var g := Generate(t, now);
      if Deliverable(g, now, cycles) then g.(asserted := true) else g
  }

  /** Whether an INTA cycle is answered at all. */
  predicate Acceptable(t: Tick) {
    t.enabled && (t.ackPhase == 1 || (t.ackPhase == 0 && t.asserted))
  }

  /** INTA #1 accepts the request; INTA #2 carries the vector. */
  function Acknowledge(t: Tick): Tick
    requires Acceptable(t)
  {
    if t.ackPhase == 0
    then t.(asserted := false, pending := false, ackPhase := 1, delivered := Wrap32(t.delivered + 1))
    else t.(ackPhase := 0, inService := true, acknowledged := Wrap32(t.acknowledged + 1))
  }

  /** The end-of-interrupt write: a real EOI, or only a scheduler fence. */
  function Fence(t: Tick, now: nat, cycles: u32): Tick {
    if !t.enabled then t
    else
      var f := t.(notBeforeCycle := Wrap32(cycles + RECOVERY_CYCLES + 1));
      if t.inService then f.(inService := false, notBeforeUs := now + PERIOD_US, eoi := Wrap32(t.eoi + 1))
      else if t.ackPhase == 0 then f.(asserted := false)
      else f
  }

  function Quiesced(t: Tick): Tick {
    t.(enabled := false, pending := false, inService := false, asserted := false, ackPhase := 0,
       notBeforeUs := 0, notBeforeCycle := 0)
  }

  function IdlePrepared(t: Tick): Tick {
    if t.enabled then Quiesced(t) else t
  }

  // ---- conservation ---------------------------------------------------------

  function One(b: bool): nat { if b then 1 else 0 }

  /** Ticks generated and neither delivered nor coalesced, ticks delivered and
      not acknowledged, ticks acknowledged and not ended: modulo 2^32. */
  function Undelivered(t: Tick): u32 { Gap(t.generated, t.delivered, t.coalesced) }

  function Unacknowledged(t: Tick): u32 { Gap(t.delivered, t.acknowledged, 0) }

  function Unended(t: Tick): u32 { Gap(t.acknowledged, t.eoi, 0) }

  function Gap(a: u32, b: u32, c: u32): u32 { Wrap32(a - b - c) }

  /** One slot: a tick is waiting, or between its INTA cycles, or in service. */
  predicate OneSlot(t: Tick) {
    && t.ackPhase <= 1
    && One(t.pending) + t.ackPhase + One(t.inService) <= 1
    && (t.asserted ==> t.enabled && t.pending)
  }

  predicate Conserved(t: Tick) {
    && OneSlot(t)
    && Undelivered(t) <= 1 && Unacknowledged(t) <= 1 && Unended(t) <= 1
    && (t.enabled ==> Undelivered(t) == One(t.pending)
                      && Unacknowledged(t) == t.ackPhase
                      && Unended(t) == One(t.inService))
  }

  lemma FreshConserved(enabled: bool)
    ensures Conserved(Fresh(enabled))
  {
  }

  lemma Residue(n: int)
    ensures n == W32 * (n / W32) + Wrap32(n)
  {
  }

  lemma SameClass(x: int, y: int, k: int)
    requires x == y + W32 * k
    ensures x % W32 == y % W32
  {
    Residue(x); Residue(y);
    assert Wrap32(x) - Wrap32(y) == W32 * (y / W32 - x / W32 + k);
  }

  lemma Quotient(n: int) returns (q: int)
    ensures n == W32 * q + Wrap32(n)
  {
    q := n / W32;
  }

  lemma UniqueResidue(x: int, y: u32, k: int)
    requires x == y + W32 * k
    ensures Wrap32(x) == y
  {
    SameClass(x, y, k);
  }

  /** A difference of wrapped counters moves by what the counters move. */
  lemma GapMoves(a: u32, b: u32, c: u32, da: int, db: int, dc: int)
    requires 0 <= Gap(a, b, c) + da - db - dc < W32
    ensures Gap(Wrap32(a + da), Wrap32(b + db), Wrap32(c + dc)) == Gap(a, b, c) + da - db - dc
  {
    hide Wrap32;
    var qa := Quotient(a + da);
    var qb := Quotient(b + db);
    var qc := Quotient(c + dc);
    var q := Quotient(a - b - c);
    UniqueResidue(Wrap32(a + da) - Wrap32(b + db) - Wrap32(c + dc), Gap(a, b, c) + da - db - dc, q - qa + qb + qc);
  }

  lemma Steady(a: u32)
    ensures Wrap32(a) == a
  {
  }

  lemma GenerateLine(t: Tick, now: nat)
    ensures Generate(t, now).asserted == t.asserted && Generate(t, now).enabled == t.enabled
  {
  }

  lemma GenerateConserves(t: Tick, now: nat)
    requires Conserved(t) && t.enabled
    ensures Conserved(Generate(t, now)) && Generate(t, now).enabled
    ensures Generate(t, now).asserted == t.asserted
  {
    hide Gap; hide Wrap32; hide Expired;
    var n := Expired(t, now);
    if n != 0 {
      var kept := if t.ackPhase == 0 && !t.inService && !t.pending then 1 else 0;
      GapMoves(t.generated, t.delivered, t.coalesced, n, 0, n - kept);
      Steady(t.delivered);
      var g := Generate(t, now);
      assert g.coalesced == Wrap32(t.coalesced + (n - kept)) && g.generated == Wrap32(t.generated + n);
      assert One(g.pending) == One(t.pending) + kept;
    }
  }

  lemma UpdateConserves(t: Tick, now: nat, cycles: u32)
    requires Conserved(t)
    ensures Conserved(Update(t, now, cycles))
  {
    hide Gap; hide Generate;
    if t.enabled { GenerateConserves(t, now); }
  }

  lemma AcknowledgeConserves(t: Tick)
    requires Conserved(t) && Acceptable(t)
    ensures Conserved(Acknowledge(t))
  {
    hide Gap; hide Wrap32;
    Steady(t.generated); Steady(t.coalesced); Steady(t.acknowledged); Steady(t.eoi); Steady(t.delivered); Steady(0);
    if t.ackPhase == 0 {
      GapMoves(t.generated, t.delivered, t.coalesced, 0, 1, 0);
      GapMoves(t.delivered, t.acknowledged, 0, 1, 0, 0);
    } else {
      GapMoves(t.delivered, t.acknowledged, 0, 0, 1, 0);
      GapMoves(t.acknowledged, t.eoi, 0, 1, 0, 0);
    }
  }

  lemma FenceConserves(t: Tick, now: nat, cycles: u32)
    requires Conserved(t)
    ensures Conserved(Fence(t, now, cycles))
  {
    hide Gap; hide Wrap32;
    Steady(t.acknowledged); Steady(0);
    if t.enabled && t.inService { GapMoves(t.acknowledged, t.eoi, 0, 0, 1, 0); }
  }

  /** A yield-only fence takes back an interrupt nobody has accepted: the tick
      stays pending, no counter moves, and neither the wall-clock gate nor the
      source phase is touched. */
  lemma YieldFence(t: Tick, now: nat, cycles: u32)
    requires Conserved(t) && t.enabled && !t.inService
    ensures var f := Fence(t, now, cycles);
            && !f.asserted && f.pending == t.pending && f.ackPhase == t.ackPhase
            && f.notBeforeUs == t.notBeforeUs && f.nextUs == t.nextUs
            && f == t.(asserted := false, notBeforeCycle := f.notBeforeCycle)
  {
  }

  // ---- the phase of the source ------------------------------------------------

  /** The source is locked to the wall clock it was started from: after any
      poll the count is the number of whole periods, however late the poll. */
  predicate PhaseLocked(t: Tick, started: nat, periods: nat) {
    t.enabled && t.nextUs != 0 ==>
      t.nextUs == started + PERIOD_US * (periods + 1) && t.generated == Wrap32(periods)
  }

  lemma WholePeriods(now: nat, started: nat, periods: nat)
    requires started + PERIOD_US * periods <= now
    ensures var next := started + PERIOD_US * (periods + 1);
            (now - started) / PERIOD_US == periods + if now < next then 0 else 1 + (now - next) / PERIOD_US
  {
    var next := started + PERIOD_US * (periods + 1);
    var m := if now < next then 0 else 1 + (now - next) / PERIOD_US;
    var r := now - started - PERIOD_US * (periods + m);
    assert 0 <= r < PERIOD_US;
    assert now - started == PERIOD_US * (periods + m) + r;
  }

  lemma UpdateLocks(t: Tick, now: nat, cycles: u32, started: nat, periods: nat)
    requires PhaseLocked(t, started, periods) && t.enabled && t.nextUs != 0
    requires started + PERIOD_US * periods <= now
    ensures PhaseLocked(Update(t, now, cycles), started, (now - started) / PERIOD_US)
    ensures Update(t, now, cycles).enabled && Update(t, now, cycles).nextUs != 0
    ensures periods <= (now - started) / PERIOD_US && started + PERIOD_US * ((now - started) / PERIOD_US) <= now
  {
    WholePeriods(now, started, periods);
    Wrap32Add(periods, Expired(t, now));
  }

  // ---- the recovery gates -------------------------------------------------------

  /** When the progress gate of a fence written at completed-cycle count
      `fence` is honest: it never opens before 64 further cycles, at any later
      count, exactly if the stored deadline is not the word zero. */
  lemma GateExactly(fence: nat)
    ensures (forall c: nat :: fence <= c && CycleReached(Wrap32(c), Wrap32(fence + RECOVERY_CYCLES + 1)) ==>
               fence + RECOVERY_CYCLES + 1 <= c)
            <==> (fence + RECOVERY_CYCLES + 1) % W32 != 0
  {
    var d := fence + RECOVERY_CYCLES + 1;
    if d % W32 == 0 {
      assert CycleReached(Wrap32(fence), Wrap32(d));
    } else {
      forall c: nat | fence <= c && CycleReached(Wrap32(c), Wrap32(d))
        ensures d <= c
      {
        if c < d { GateClosed(fence, c); }
      }
    }
  }

  lemma DistanceOf(c: nat, d: nat)
    ensures (Wrap32(c) - Wrap32(d)) % W32 == (c - d) % W32
  {
    Residue(c); Residue(d);
    SameClass(Wrap32(c) - Wrap32(d), c - d, d / W32 - c / W32);
  }

  lemma GateClosed(fence: nat, c: nat)
    requires fence <= c < fence + RECOVERY_CYCLES + 1
    requires (fence + RECOVERY_CYCLES + 1) % W32 != 0
    ensures !CycleReached(Wrap32(c), Wrap32(fence + RECOVERY_CYCLES + 1))
  {
    var d := fence + RECOVERY_CYCLES + 1;
    DistanceOf(c, d);
    SameClass(c - d, c - d + W32, -1);
  }

  /** And it does open: at 64 further cycles, and for 2^31 cycles after that. */
  lemma GateOpens(fence: nat, c: nat)
    requires fence + RECOVERY_CYCLES + 1 <= c < fence + RECOVERY_CYCLES + 1 + HALF32
    ensures CycleReached(Wrap32(c), Wrap32(fence + RECOVERY_CYCLES + 1))
  {
    DistanceOf(c, fence + RECOVERY_CYCLES + 1);
  }

  // ---- runs ---------------------------------------------------------------------

  /** What a run has done: completed bus cycles without wrap-around, the last
      instant looked at, the start of execution, whole periods counted, the
      count at the latest restore fence, and the time of the latest real EOI. */
  datatype Log = Log(cycles: nat, clock: nat, started: nat, periods: nat, fence: Option<nat>, eoiAt: Option<nat>)

  datatype Watched = Watched(tick: Tick, log: Log)

  function Begun(enabled: bool, started: nat): Watched {
    Watched(Armed(Fresh(enabled), started), Log(0, started, started, 0, None, None))
  }

  /** One look at the clock before a bus cycle. */
  function Poll(w: Watched, now: nat): Watched {
    Watched(Update(w.tick, now, Wrap32(w.log.cycles)),
            w.log.(clock := now,
                   periods := if w.tick.enabled && w.tick.nextUs != 0 && w.log.started <= now
                              then (now - w.log.started) / PERIOD_US else w.log.periods))
  }

  function CycleDone(w: Watched): Watched {
    w.(log := w.log.(cycles := w.log.cycles + 1))
  }

  /** The callback of a write cycle that carries the EOI command. */
  function Restore(w: Watched, now: nat): Watched {
    Watched(Fence(w.tick, now, Wrap32(w.log.cycles)),
            if !w.tick.enabled then w.log.(clock := now)
            else w.log.(clock := now, fence := Some(w.log.cycles),
                        eoiAt := if w.tick.inService then Some(now) else w.log.eoiAt))
  }

  predicate Gated(w: Watched) {
    var t, log := w.tick, w.log;
    && (t.enabled ==> t.notBeforeUs == if log.eoiAt.None? then 0 else log.eoiAt.value + PERIOD_US)
    && (t.enabled ==> t.notBeforeCycle == if log.fence.None? then 0 else Wrap32(log.fence.value + RECOVERY_CYCLES + 1))
    && (log.fence.Some? ==> log.fence.value <= log.cycles) && (log.eoiAt.Some? ==> log.eoiAt.value <= log.clock)
    && (t.asserted ==> Recovered(log))
  }

  /** Both recoveries since the latest fence and the latest real EOI. */
  predicate Recovered(log: Log) {
    && (log.eoiAt.Some? ==> log.eoiAt.value + PERIOD_US <= log.clock)
    && (log.fence.Some? && (log.fence.value + RECOVERY_CYCLES + 1) % W32 != 0 ==>
          log.fence.value + RECOVERY_CYCLES + 1 <= log.cycles)
  }

  predicate WatchedInv(w: Watched) {
    && Conserved(w.tick) && Gated(w)
    && PhaseLocked(w.tick, w.log.started, w.log.periods)
    && w.log.started + PERIOD_US * w.log.periods <= w.log.clock
  }

  lemma BegunInv(enabled: bool, started: nat)
    ensures WatchedInv(Begun(enabled, started))
  {
    FreshConserved(enabled);
  }

  lemma PollInv(w: Watched, now: nat)
    requires WatchedInv(w) && w.log.clock <= now
    ensures WatchedInv(Poll(w, now))
    ensures w.tick.enabled && w.tick.nextUs != 0 ==> Poll(w, now).log.periods == (now - w.log.started) / PERIOD_US
  {
    hide Gap; hide Wrap32; hide Expired; hide CycleReached;
    UpdateConserves(w.tick, now, Wrap32(w.log.cycles));
    if w.tick.enabled && w.tick.nextUs != 0 {
      UpdateLocks(w.tick, now, Wrap32(w.log.cycles), w.log.started, w.log.periods);
      if w.log.fence.Some? { GateExactly(w.log.fence.value); }
    }
  }

  lemma CycleDoneInv(w: Watched)
    requires WatchedInv(w)
    ensures WatchedInv(CycleDone(w))
  {
    hide Conserved; hide Wrap32; hide PhaseLocked;
  }

  lemma AcknowledgeInv(w: Watched)
    requires WatchedInv(w) && Acceptable(w.tick)
    ensures WatchedInv(w.(tick := Acknowledge(w.tick)))
  {
    AcknowledgeConserves(w.tick);
  }

  lemma RestoreInv(w: Watched, now: nat)
    requires WatchedInv(w) && w.log.clock <= now
    ensures WatchedInv(Restore(w, now))
    ensures !Restore(w, now).tick.asserted
  {
    hide Wrap32; hide Gap;
    FenceConserves(w.tick, now, Wrap32(w.log.cycles));
    Wrap32Add(w.log.cycles, RECOVERY_CYCLES + 1);
  }

  lemma QuiescedInv(w: Watched)
    requires WatchedInv(w)
    ensures WatchedInv(w.(tick := Quiesced(w.tick)))
  {
  }

  datatype Event = Look(later: nat) | Inta | Eoi(later: nat) | Other

  /** One event; an INTA nobody asked for ends the run and is not an event. */
  function Happen(w: Watched, e: Event): Watched {
    match e
    case Look(later) => Poll(w, w.log.clock + later)
    case Inta => if Acceptable(w.tick) then CycleDone(w.(tick := Acknowledge(w.tick))) else w
    case Eoi(later) => CycleDone(Restore(w, w.log.clock + later))
    case Other => CycleDone(w)
  }

  function Run(w: Watched, events: seq<Event>): Watched
    decreases events
  {
    if events == [] then w else Run(Happen(w, events[0]), events[1..])
  }

  lemma HappenInv(w: Watched, e: Event)
    requires WatchedInv(w)
    ensures WatchedInv(Happen(w, e))
  {
    hide WatchedInv; hide Poll; hide Restore;
    match e
    case Look(later) => PollInv(w, w.log.clock + later);
    case Inta => if Acceptable(w.tick) { AcknowledgeInv(w); CycleDoneInv(w.(tick := Acknowledge(w.tick))); }
    case Eoi(later) => RestoreInv(w, w.log.clock + later); CycleDoneInv(Restore(w, w.log.clock + later));
    case Other => CycleDoneInv(w);
  }

  lemma HappenKeeps(w: Watched, e: Event)
    ensures Happen(w, e).tick.enabled == w.tick.enabled && Happen(w, e).log.started == w.log.started
    ensures w.tick.nextUs != 0 ==> Happen(w, e).tick.nextUs != 0
  {
  }

  lemma {:induction false} RunInv(w: Watched, events: seq<Event>)
    requires WatchedInv(w)
    ensures WatchedInv(Run(w, events))
    ensures Run(w, events).tick.enabled == w.tick.enabled && Run(w, events).log.started == w.log.started
    ensures w.tick.nextUs != 0 ==> Run(w, events).tick.nextUs != 0
    decreases events
  {
    if events != [] {
      HappenInv(w, events[0]);
      HappenKeeps(w, events[0]);
      hide Happen; hide WatchedInv;
      RunInv(Happen(w, events[0]), events[1..]);
    }
  }

  /** Every tick of every run is in exactly one place, modulo 2^32. */
  lemma TicksConserved(started: nat, events: seq<Event>)
    ensures var t := Run(Begun(true, started), events).tick;
            && t.generated == Wrap32(t.delivered + t.coalesced + One(t.pending))
            && t.delivered == Wrap32(t.acknowledged + t.ackPhase)
            && t.acknowledged == Wrap32(t.eoi + One(t.inService))
            && (t.asserted ==> t.pending && t.ackPhase == 0 && !t.inService)
  {
    BegunInv(true, started);
    RunInv(Begun(true, started), events);
    var t := Run(Begun(true, started), events).tick;
    CounterFrom(t.generated, t.delivered, t.coalesced);
    CounterFrom(t.delivered, t.acknowledged, 0);
    CounterFrom(t.acknowledged, t.eoi, 0);
    hide Gap; hide Wrap32;
  }

  lemma CounterFrom(a: u32, b: u32, c: u32)
    ensures a == Wrap32(b + c + Gap(a, b, c))
  {
    Residue(a - b - c);
    SameClass(b + c + Gap(a, b, c), a, -((a - b - c) / W32));
  }

  /** Late and batched polls never drift the source. */
  lemma SourceNeverDrifts(started: nat, events: seq<Event>, later: nat)
    ensures var w := Run(Begun(true, started), events);
            var now := w.log.clock + later;
            var t := Poll(w, now).tick;
            && started <= now
            && t.generated == Wrap32((now - started) / PERIOD_US)
            && t.nextUs == started + PERIOD_US * ((now - started) / PERIOD_US + 1)
            && now < t.nextUs
  {
    hide Gap; hide Wrap32; hide Conserved; hide Generate; hide Expired;
    BegunInv(true, started);
    RunInv(Begun(true, started), events);
    var w := Run(Begun(true, started), events);
    PollInv(w, w.log.clock + later);
    UpdateLocks(w.tick, w.log.clock + later, Wrap32(w.log.cycles), started, w.log.periods);
  }

  /** Whenever INTR is up, both recoveries have passed. */
  lemma GatesHold(started: nat, events: seq<Event>)
    ensures var w := Run(Begun(true, started), events);
            w.tick.asserted ==> Recovered(w.log)
  {
    BegunInv(true, started);
    RunInv(Begun(true, started), events);
  }

  // ---- when a tick is delivered ----------------------------------------------------------------

  /** Ten milliseconds since the last real EOI, if there was one. */
  predicate TimeOpen(log: Log, now: nat) { log.eoiAt.Some? ==> log.eoiAt.value + 10_000 <= now }

  /** Whether the completed cycles have left the last fence behind, if there was
      one: the signed 32-bit distance from 65 past it; a fence on the one count
      whose deadline is the word zero closes nothing. */
  predicate ProgressOpen(log: Log) {
    log.fence.Some? ==>
      || (log.fence.value + 65) % 0x1_0000_0000 == 0
      || (log.cycles - (log.fence.value + 65)) % 0x1_0000_0000 < 0x8000_0000
  }

  /** So for 2^31 cycles that is exactly whether 65 have completed since. */
  lemma ProgressMeans(log: Log)
    requires log.fence.Some? && log.fence.value <= log.cycles < log.fence.value + 65 + 0x8000_0000
    ensures ProgressOpen(log) <==> log.fence.value + 65 <= log.cycles || (log.fence.value + 65) % 0x1_0000_0000 == 0
  {
    var d := log.fence.value + 65;
    if log.cycles < d { SameClass(log.cycles - d, log.cycles - d + W32, -1); }
  }

  lemma ProgressReached(log: Log, deadline: u32)
    requires deadline == if log.fence.None? then 0 else Wrap32(log.fence.value + RECOVERY_CYCLES + 1)
    ensures CycleReached(Wrap32(log.cycles), deadline) <==> ProgressOpen(log)
  {
    if log.fence.Some? { DistanceOf(log.cycles, log.fence.value + RECOVERY_CYCLES + 1); }
  }

  /** A poll, on the log alone: which tick becomes pending, which are delayed, and
      exactly when INTR is up afterwards. */
  predicate Delivers(w: Watched, now: nat, p: Tick) {
    var t, log := w.tick, w.log;
    var free := t.ackPhase == 0 && !t.inService;
    var expired := if log.started <= now then (now - log.started) / 10_000 - log.periods else 0;
    && p.ackPhase == t.ackPhase && p.inService == t.inService
    && p.pending == (t.pending || (expired > 0 && free))
    && p.delayed == Wrap32(t.delayed + if free then 0 else expired)
    && (p.asserted <==> p.pending && free && (t.asserted || (TimeOpen(log, now) && ProgressOpen(log))))
  }

  lemma GenerateFrees(t: Tick, now: nat)
    ensures var g := Generate(t, now);
            && g.ackPhase == t.ackPhase && g.inService == t.inService && g.asserted == t.asserted && g.enabled == t.enabled
            && g.notBeforeUs == t.notBeforeUs && g.notBeforeCycle == t.notBeforeCycle
            && g.pending == (t.pending || (Expired(t, now) > 0 && t.ackPhase == 0 && !t.inService))
            && g.delayed == if t.ackPhase == 0 && !t.inService then t.delayed else Wrap32(t.delayed + Expired(t, now))
  {
    hide Wrap32; hide Expired;
    if Expired(t, now) == 0 { Wrap32Small(t.delayed); }
  }

  lemma PollDelivers(w: Watched, now: nat)
    requires WatchedInv(w) && w.log.clock <= now && w.tick.enabled && w.tick.nextUs != 0
    ensures Delivers(w, now, Poll(w, now).tick)
  {
    hide Conserved; hide Generate; hide CycleReached; hide ProgressOpen; hide Wrap32;
    var t := w.tick;
    GenerateFrees(t, now);
    ProgressReached(w.log, t.notBeforeCycle);
    WholePeriods(now, w.log.started, w.log.periods);
    Wrap32Small(t.delayed);
    if t.asserted { AssertedMeans(t); }
  }

  lemma AssertedMeans(t: Tick)
    requires Conserved(t) && t.asserted
    ensures t.pending && t.ackPhase == 0 && !t.inService
  {
    hide Gap;
  }

  /** Over every run, at every later poll. */
  lemma TickDelivery(started: nat, events: seq<Event>, later: nat)
    ensures var w := Run(Begun(true, started), events);
            && Delivers(w, w.log.clock + later, Poll(w, w.log.clock + later).tick)
            && (w.log.fence.Some? && w.log.cycles < w.log.fence.value + 65 + 0x8000_0000 ==>
                  (ProgressOpen(w.log)
                   <==> w.log.fence.value + 65 <= w.log.cycles || (w.log.fence.value + 65) % 0x1_0000_0000 == 0))
  {
    hide Conserved; hide Gap; hide Wrap32; hide Delivers; hide ProgressOpen; hide Run; hide PhaseLocked;
    BegunInv(true, started);
    RunInv(Begun(true, started), events);
    var w := Run(Begun(true, started), events);
    PollDelivers(w, w.log.clock + later);
    if w.log.fence.Some? && w.log.cycles < w.log.fence.value + 65 + 0x8000_0000 { ProgressMeans(w.log); }
  }

  /** So no pending tick is lost: from every reachable state with one pending and
      nothing in service, 65 further cycles and a poll 10 ms later raise INTR. */
  lemma TickArrives(started: nat, events: seq<Event>, later: nat)
    requires var w := Run(Begun(true, started), events);
             && w.tick.pending && w.tick.ackPhase == 0 && !w.tick.inService && later >= 10_000
             && (w.log.fence.Some? ==> w.log.cycles < w.log.fence.value + 0x8000_0000)
    ensures Run(Begun(true, started), events + seq(65, _ => Other) + [Look(later)]).tick.asserted
  {
    hide Conserved; hide Gap; hide Wrap32;
    var w := Run(Begun(true, started), events);
    BegunInv(true, started);
    RunInv(Begun(true, started), events);
    RunAppend(Begun(true, started), events, seq(65, _ => Other));
    OtherCycles(w, 65);
    var v := w.(log := w.log.(cycles := w.log.cycles + 65));
    RunInv(w, seq(65, _ => Other));
    RunAppend(Begun(true, started), events + seq(65, _ => Other), [Look(later)]);
    OneEvent(v, Look(later));
    PollDelivers(v, v.log.clock + later);
    if v.log.fence.Some? { ProgressMeans(v.log); }
  }

  lemma OneEvent(w: Watched, e: Event)
    ensures Run(w, [e]) == Happen(w, e)
  {
    assert [e][1..] == [];
  }

  // ---- the one count at which the progress gate is missing --------------------------

  lemma {:induction false} OtherCycles(w: Watched, n: nat)
    ensures Run(w, seq(n, _ => Other)) == w.(log := w.log.(cycles := w.log.cycles + n))
    decreases n
  {
    if n != 0 {
      assert seq(n, _ => Other)[1..] == seq(n - 1, _ => Other);
      OtherCycles(CycleDone(w), n - 1);
    }
  }

  lemma {:induction false} RunAppend(w: Watched, first: seq<Event>, second: seq<Event>)
    ensures Run(w, first + second) == Run(Run(w, first), second)
    decreases first
  {
    if first == [] {
      assert first + second == second;
    } else {
      assert (first + second)[1..] == first[1..] + second;
      RunAppend(Happen(w, first[0]), first[1..], second);
    }
  }

  /** A fence on the cycle after 2^32 - 65 completed ones stores the word zero,
      which reads as an open gate: INTR rises one cycle after the fence. */
  lemma GateMissing(started: nat)
    ensures exists events :: var w := Run(Begun(true, started), events);
              w.tick.asserted && w.log.fence.Some? && w.log.cycles == w.log.fence.value + 1
  {
    var n: nat := W32 - RECOVERY_CYCLES - 1;
    var events := seq(n, _ => Other) + [Eoi(0), Look(PERIOD_US)];
    var w0 := Begun(true, started);
    OtherCycles(w0, n);
    RunAppend(w0, seq(n, _ => Other), [Eoi(0), Look(PERIOD_US)]);
    var w1 := w0.(log := w0.log.(cycles := n));
    var w2 := Happen(w1, Eoi(0));
    assert [Eoi(0), Look(PERIOD_US)][1..] == [Look(PERIOD_US)];
    assert Run(w2, [Look(PERIOD_US)]) == Happen(w2, Look(PERIOD_US));
    assert w2.tick.notBeforeCycle == 0;
    assert Happen(w2, Look(PERIOD_US)).tick.asserted;
    assert Run(w0, events) == Happen(w2, Look(PERIOD_US));
  }
}
