/** The electrical side of the processor bus as far as the supervisor relies on
    it: which way RESET, INTR, the AD lines and the clock are left. */
module ProcessorBus {

  datatype ClockMode = FreeRunning | Stepped | Stopped

  datatype Pins = Pins(reset: bool, intr: bool, adDriven: bool, clock: ClockMode, faulted: bool)

  const RESET_CLOCKS: nat := 20

  /** RESET held, clock stopped, AD lines released. */
  predicate Parked(p: Pins) {
    p.reset && p.clock.Stopped? && !p.adDriven
  }

  /** Parked, and no interrupt request. */
  predicate Safe(p: Pins) {
    Parked(p) && !p.intr
  }

  function Park(p: Pins): Pins {
    p.(reset := true, clock := Stopped, adDriven := false)
  }

  /** How the clock hardware behaves during one sequence: does a free-running
      clock acknowledge its stop, does the state machine initialise, and how many
      single clocks in a row are answered. */
  datatype Hardware = Hardware(stops: bool, prepares: bool, answers: nat)

  /** Whether a switch to single stepping succeeds. */
  predicate ReachesStepped(clock: ClockMode, h: Hardware) {
    clock.Stepped? || ((clock.FreeRunning? ==> h.stops) && h.prepares)
  }

  predicate ResetAnswered(h: Hardware) { h.answers >= RESET_CLOCKS }

  /** What `safe_halt` leaves in the fault flag. */
  predicate HaltFaults(clock: ClockMode, h: Hardware) { !ReachesStepped(clock, h) || !ResetAnswered(h) }

  /** The result of `safe_halt`. */
  function Halted(p: Pins, h: Hardware): Pins {
    Park(p).(faulted := HaltFaults(p.clock, h))
  }

  /** The result of `reset_sequence`. */
  function AfterReset(p: Pins, ok: bool): Pins {
    if ok then p.(reset := false, adDriven := false, faulted := false)
    else Park(p).(faulted := true)
  }

  class Bus {
    var reset: bool
    var intr: bool
    var adDriven: bool
    var clock: ClockMode
    var faulted: bool

    ghost function View(): Pins
      reads this
    {
      Pins(reset, intr, adDriven, clock, faulted)
    }

    constructor (pins: Pins)
      ensures View() == pins
    {
      reset, intr, adDriven, clock, faulted := pins.reset, pins.intr, pins.adDriven, pins.clock, pins.faulted;
    }

    /** `set_intr`. */
    method SetIntr(asserted: bool)
      modifies this`intr
      ensures intr == asserted
    {
      intr := asserted;
    }

    /** `stop_low`: every mode ends stopped, acknowledged or not. */
    method StopClockLow()
      modifies this`clock
      ensures clock.Stopped?
    {
      clock := Stopped;
    }

    method ForceSafeState()
      modifies this
      ensures View() == Park(old(View()))
    {
      adDriven := false;
      reset := true;
      StopClockLow();
    }

    /** `set_mode`: a failed switch leaves the old mode, or a clock that was
        stopped and could not be prepared again. */
    method SetClockMode(mode: ClockMode, h: Hardware) returns (ok: bool)
      modifies this`clock
      ensures ok <==> (old(clock) == mode
                       || (mode.Stepped? && ReachesStepped(old(clock), h))
                       || (mode.FreeRunning? && old(clock).Stepped? && h.prepares))
      ensures clock == if ok then mode
                       else if mode.Stepped? && old(clock).FreeRunning? && h.stops then Stopped
                       else old(clock)
    {
      if clock == mode { return true; }
      if mode.Stepped? {
        if clock.FreeRunning? {
          if !h.stops { return false; }
          clock := Stopped;
        }
        if !h.prepares { return false; }
        clock := Stepped;
        return true;
      }
      if mode.FreeRunning? {
        if !clock.Stepped? || !h.prepares { return false; }
        clock := FreeRunning;
        return true;
      }
      return false;
    }

    /** One processor clock; `ticked` is whether the clock PIO answers. */
    method Step(ticked: bool)
      modifies this
      ensures View() == if old(clock).Stepped? && ticked then old(View()) else Park(old(View())).(faulted := true)
    {
      if !clock.Stepped? || !ticked {
        faulted := true;
        ForceSafeState();
      }
    }

    /** RESET is released only after every one of its clocks was answered. */
    method ResetSequence(h: Hardware) returns (ok: bool)
      modifies this
      ensures ok == (old(clock).Stepped? && ResetAnswered(h))
      ensures View() == AfterReset(old(View()), ok)
    {
      faulted := false;
      adDriven := false;
      reset := true;
      for i := 0 to RESET_CLOCKS
        invariant View() == old(View()).(reset := true, adDriven := false, faulted := false)
        invariant i <= h.answers && (i > 0 ==> clock.Stepped?)
      {
        Step(i < h.answers);
        if faulted { return false; }
      }
      reset := false;
      return true;
    }

    /** However the clock behaves, the bus ends parked, and the fault flag says
        whether a switch or a clock went unanswered. */
    method SafeHalt(h: Hardware)
      modifies this
      ensures View() == Halted(old(View()), h)
    {
      adDriven := false;
      var ok := SetClockMode(Stepped, h);
      if !ok {
        faulted := true;
        ForceSafeState();
        return;
      }
      faulted := false;
      reset := true;
      var i := 0;
      while i < RESET_CLOCKS && !faulted
        invariant 0 <= i <= RESET_CLOCKS
        invariant reset && !adDriven && intr == old(intr)
        invariant !faulted ==> clock.Stepped? && i <= h.answers
        invariant faulted ==> h.answers < RESET_CLOCKS
      {
        Step(i < h.answers);
        i := i + 1;
      }
      ForceSafeState();
    }
  }
}
