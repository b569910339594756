/** The measurement state machine of the HC-SR04 bridge as values: the
    firmware's shared state, one function per atomic step (an interrupt
    handler, one pass of the polling loop, the arm and teardown steps of the
    main loop), and the bytes a bus master receives from the SPI slave. */
module Sonar {
  import opened Bytes

  /** Everything the firmware's steps read or write. `risingEdge` and
      `fallingEdge` are locals of `main` that live across all of its loop
      iterations; `ices1` is the input-capture edge-select bit of TCCR1B
      (true: capture on the rising edge); `timerArmed` abstracts timer 1
      running with its capture and compare-match interrupts enabled. */
  datatype Regs = Regs(
    edgeDetect: u8,
    conversionComplete: bool,
    distance: u16,
    risingEdge: u16,
    fallingEdge: u16,
    ices1: bool,
    spdr: u8,
    timerArmed: bool)

  /** Power-up state: the globals' initialisers, `SPDR = 0`, both edge locals
      0, and timer 1 stopped (TCCR1B and TIMSK1 are 0 after reset). */
  function Init(): (r: Regs)
    ensures r.edgeDetect == 0 && !r.conversionComplete && r.distance == 0
    ensures r.spdr == 0 && !r.timerArmed && Coherent(r)
  {
    Regs(0, false, 0, 0, 0, false, 0, false)
  }

  /** What `time_stamp(c)` returns, with the state it leaves behind. */
  datatype Stamp = Stamp(regs: Regs, ticks: u16)

  /** `time_stamp(c)`: for c == 0 advance `edgeDetect` and switch capture to
      the falling edge; for c == 1 reset `edgeDetect`; any other c changes
      nothing. Always returns the capture register ICR1. */
  function TimeStamp(s: Regs, c: u8, icr1: u16): (r: Stamp)
    ensures r.ticks == icr1
    ensures c == 0 ==>
      && r.regs.edgeDetect == (s.edgeDetect + 1) % 256 && !r.regs.ices1
      && r.regs.(edgeDetect := s.edgeDetect, ices1 := s.ices1) == s
    ensures c == 1 ==>
      r.regs.edgeDetect == 0 && r.regs.(edgeDetect := s.edgeDetect) == s
    ensures c > 1 ==> r.regs == s
  {
    match c
    case 0 => Stamp(s.(edgeDetect := Inc8(s.edgeDetect), ices1 := false), icr1)
    case 1 => Stamp(s.(edgeDetect := 0), icr1)
    case _ => Stamp(s, icr1)
  }

  /** One pass of the body of `while (conversionComplete == 0)`, with both of
      its critical sections: on edge count 1 record the rising edge, then on
      edge count 3 record the falling edge, compute the distance, stage its
      low byte in SPDR and signal completion. ICR1 is the capture value the
      hardware latched, supplied by the environment. */
  function PollBody(s: Regs, icr1: u16): (r: Regs)
    ensures s.edgeDetect == 1 ==>
      r == s.(risingEdge := icr1, edgeDetect := 2, ices1 := false)
    ensures s.edgeDetect == 3 ==>
      var d := Sub16(icr1, s.risingEdge);
      r == s.(fallingEdge := icr1, distance := d, spdr := Low(d),
              edgeDetect := 0, conversionComplete := true)
    ensures s.edgeDetect != 1 && s.edgeDetect != 3 ==> r == s
  {
    var s1 :=
      if s.edgeDetect == 1 then
        var st := TimeStamp(s, 0, icr1);
        st.regs.(risingEdge := st.ticks)
      else s;
    if s1.edgeDetect == 3 then
      var st := TimeStamp(s1, 1, icr1);
      var d := Sub16(st.ticks, st.regs.risingEdge);
      st.regs.(fallingEdge := st.ticks, distance := d, spdr := Low(d),
               conversionComplete := true)
    else s1
  }

  /** TIMER1_CAPT_vect: count one more captured edge (8-bit, wraps). */
  function CaptureIsr(s: Regs): (r: Regs)
    ensures r.edgeDetect == (s.edgeDetect + 1) % 256
    ensures r.(edgeDetect := s.edgeDetect) == s
  {
    s.(edgeDetect := Inc8(s.edgeDetect))
  }

  /** TIMER1_COMPA_vect: the echo took too long; finish the cycle with distance 0. */
  function TimeoutIsr(s: Regs): (r: Regs)
    ensures r.conversionComplete && r.edgeDetect == 0
    ensures r.distance == 0 && r.spdr == 0
    ensures r.(conversionComplete := s.conversionComplete, edgeDetect := s.edgeDetect,
               distance := s.distance, spdr := s.spdr) == s
  {
    s.(conversionComplete := true, edgeDetect := 0, spdr := 0, distance := 0)
  }

  /** SPI_STC_vect: a byte has been shifted out; stage the high byte of the distance. */
  function SpiIsr(s: Regs): (r: Regs)
    ensures r.spdr == High(s.distance) && r.distance == s.distance
    ensures r.(spdr := s.spdr) == s
  {
    s.(spdr := High(s.distance))
  }

  /** Start of a cycle after the trigger pulse: capture on the rising edge,
      clear pending timer flags, enable capture and compare-match interrupts. */
  function ArmStep(s: Regs): (r: Regs)
    ensures r.ices1 && r.timerArmed
    ensures r.(ices1 := s.ices1, timerArmed := s.timerArmed) == s
  {
    s.(ices1 := true, timerArmed := true)
  }

  /** End of a cycle: clear the completion flag, write 0 to TCCR1B (which
      stops the timer and also clears the edge-select bit) and disable the
      timer interrupts. The edge counter is left as it is. */
  function TeardownStep(s: Regs): (r: Regs)
    ensures !r.conversionComplete && !r.ices1 && !r.timerArmed
    ensures r.edgeDetect == s.edgeDetect && r.distance == s.distance && r.spdr == s.spdr
    ensures r.(conversionComplete := s.conversionComplete, ices1 := s.ices1,
               timerArmed := s.timerArmed) == s
  {
    s.(conversionComplete := false, ices1 := false, timerArmed := false)
  }

  /** The events that drive the firmware, each one atomic. */
  datatype Event =
    | Capture             // the input-capture unit saw the selected edge
    | Timeout             // timer 1 reached the compare value
    | ByteShifted         // the SPI master clocked out one byte
    | Poll(icr1: u16)     // one pass of the polling loop body
    | Arm
    | Teardown

  /** One event. The timer interrupts are delivered only while the timer is
      armed: arming clears any flag raised while it was not. Any event may
      come in any state, including orders the main loop never takes (a poll
      while disarmed, a second arm), so what holds of every `Run` holds of
      the firmware's runs in particular. Only a resolving poll and an armed
      timeout write the distance, and every step keeps SPDR a byte of it. */
  function Step(s: Regs, e: Event): (r: Regs)
    ensures r.distance != s.distance ==>
      (e.Poll? && s.edgeDetect == 3) || (e == Timeout && s.timerArmed)
    ensures !s.timerArmed && (e == Capture || e == Timeout) ==> r == s
    ensures Coherent(s) ==> Coherent(r)
  {
    match e
    case Capture => if s.timerArmed then CaptureIsr(s) else s
    case Timeout => if s.timerArmed then TimeoutIsr(s) else s
    case ByteShifted => SpiIsr(s)
    case Poll(icr1) => PollBody(s, icr1)
    case Arm => ArmStep(s)
    case Teardown => TeardownStep(s)
  }

  /** The state after a sequence of events, in order. */
  function Run(s: Regs, evs: seq<Event>): (r: Regs)
    decreases |evs|
  {
    if evs == [] then s else Run(Step(s, evs[0]), evs[1..])
  }

  /** The bytes a bus master receives from n back-to-back transfers with no
      other event in between: each transfer shifts out SPDR, then the
      transfer-complete interrupt reloads it. */
  function Serve(s: Regs, n: nat): (r: seq<u8>)
    ensures |r| == n
    ensures n > 0 ==> r[0] == s.spdr
    decreases n
  {
    if n == 0 then [] else [s.spdr] + Serve(SpiIsr(s), n - 1)
  }

  /** The byte staged for the bus is one of the two bytes of the current distance. */
  predicate Coherent(s: Regs)
  {
    s.spdr == Low(s.distance) || s.spdr == High(s.distance)
  }
}
