/** The firmware as it runs: its volatile globals, the two locals of `main`
    that persist across cycles, and the hardware bits it writes, as the
    fields of one object; one method per atomic step, each proved to make
    the transition that module Sonar states for it (`PollBody` and
    `TimeStamp` under the same names, `SpiTransferComplete` as `SpiIsr`,
    `TimerCompareMatch` as `TimeoutIsr`, `TimerCapture` as `CaptureIsr`,
    `Arm` as `ArmStep`, `Teardown` as `TeardownStep`). */
module Firmware {
  import opened Bytes
  import Sonar

  class Bridge {
    var edgeDetect: u8
    var conversionComplete: bool
    var distance: u16
    var risingEdge: u16
    var fallingEdge: u16
    var ices1: bool
    var spdr: u8
    var timerArmed: bool

    /** The fields as one value, for stating each step against module Sonar. */
    function Snapshot(): Sonar.Regs
      reads this
    {
      Sonar.Regs(edgeDetect, conversionComplete, distance, risingEdge,
                 fallingEdge, ices1, spdr, timerArmed)
    }

    /** Power-up: the globals' initialisers, `SPDR = 0`, the edge locals 0,
        timer 1 stopped. */
    constructor ()
      ensures Snapshot() == Sonar.Init()
    {
      edgeDetect := 0;
      conversionComplete := false;
      distance := 0;
      spdr := 0;
      risingEdge := 0;
      fallingEdge := 0;
      ices1 := false;
      timerArmed := false;
    }

    /** `time_stamp(c)`: returns ICR1; c == 0 advances the edge counter and
        selects the falling edge, c == 1 resets the counter. */
    method TimeStamp(c: u8, icr1: u16) returns (ticks: u16)
      modifies this
      ensures ticks == icr1
      ensures Snapshot() == Sonar.TimeStamp(old(Snapshot()), c, icr1).regs
      // Corollaries of the transition above, spelled out for the reader:
      ensures c == 0 ==> edgeDetect == Inc8(old(edgeDetect)) && !ices1
      ensures c == 1 ==> edgeDetect == 0
    {
      match c {
        case 0 =>
          edgeDetect := Inc8(edgeDetect);
          ices1 := false;
        case 1 =>
          edgeDetect := 0;
        case _ =>
      }
      ticks := icr1;
    }

    /** One pass of the polling loop body, with `icr1` the value the
        capture unit latched. */
    method PollBody(icr1: u16)
      modifies this
      ensures Snapshot() == Sonar.PollBody(old(Snapshot()), icr1)
      // Corollaries of the transition above, spelled out for the reader:
      ensures old(edgeDetect) == 3 ==>
        distance == Sub16(icr1, old(risingEdge)) && spdr == Low(distance)
        && conversionComplete && edgeDetect == 0
      ensures old(edgeDetect) != 1 && old(edgeDetect) != 3 ==>
        Snapshot() == old(Snapshot())
    {
      if edgeDetect == 1 {
        risingEdge := TimeStamp(0, icr1);
      }
      if edgeDetect == 3 {
        fallingEdge := TimeStamp(1, icr1);
        distance := Sub16(fallingEdge, risingEdge);
        spdr := Low(distance);
        conversionComplete := true;
      }
    }

    /** SPI_STC_vect: stage the high byte of the distance; nothing else changes. */
    method SpiTransferComplete()
      modifies this
      ensures Snapshot() == Sonar.SpiIsr(old(Snapshot()))
      // Corollaries of the transition above, spelled out for the reader:
      ensures spdr == High(distance) && distance == old(distance)
    {
      spdr := High(distance);
    }

    /** TIMER1_COMPA_vect: end the cycle with distance 0. */
    method TimerCompareMatch()
      modifies this
      ensures Snapshot() == Sonar.TimeoutIsr(old(Snapshot()))
      // Corollaries of the transition above, spelled out for the reader:
      ensures conversionComplete && edgeDetect == 0 && spdr == 0 && distance == 0
      ensures risingEdge == old(risingEdge) && fallingEdge == old(fallingEdge)
      ensures ices1 == old(ices1) && timerArmed == old(timerArmed)
    {
      conversionComplete := true;
      edgeDetect := 0;
      spdr := 0;
      distance := 0;
    }

    /** TIMER1_CAPT_vect: count one more captured edge. */
    method TimerCapture()
      modifies this
      ensures Snapshot() == Sonar.CaptureIsr(old(Snapshot()))
      // Corollaries of the transition above, spelled out for the reader:
      ensures edgeDetect == (old(edgeDetect) + 1) % 256
    {
      edgeDetect := Inc8(edgeDetect);
    }

    /** Arm timer 1 for a new cycle: rising edge selected, interrupts enabled. */
    method Arm()
      modifies this
      ensures Snapshot() == Sonar.ArmStep(old(Snapshot()))
    {
      ices1 := true;
      timerArmed := true;
    }

    /** Tear the cycle down: clear the flag, stop and disarm timer 1. */
    method Teardown()
      modifies this
      ensures Snapshot() == Sonar.TeardownStep(old(Snapshot()))
      // Corollaries of the transition above, spelled out for the reader:
      ensures edgeDetect == old(edgeDetect) && distance == old(distance)
    {
      conversionComplete := false;
      ices1 := false;
      timerArmed := false;
    }
  }
}
