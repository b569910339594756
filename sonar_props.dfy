/** Properties of the measurement state machine: what each step promises,
    what a whole measurement cycle computes, which byte sequence the bus
    master sees, and the invariant that ties SPDR to the distance. */
module SonarProps {
  import opened Bytes
  import opened Sonar

  // ---------------------------------------------------------------------
  // Running a sequence of events
  // ---------------------------------------------------------------------

  /** Running events one after another is running their concatenation. */
  lemma {:induction false} RunAppend(s: Regs, a: seq<Event>, b: seq<Event>)
    ensures Run(s, a + b) == Run(Run(s, a), b)
    decreases |a|
  {
    if a == [] {
      assert a + b == b;
    } else {
      assert (a + b)[1..] == a[1..] + b;
      RunAppend(Step(s, a[0]), a[1..], b);
    }
  }

  /** Running one event is taking one step. */
  lemma RunOne(s: Regs, e: Event)
    ensures Run(s, [e]) == Step(s, e)
  {
  }

  // ---------------------------------------------------------------------
  // Single steps
  // ---------------------------------------------------------------------

  /** The transfer-complete handler only restages the high byte of a
      distance it does not change, so running it again changes nothing. */
  lemma SpiIdempotent(s: Regs)
    ensures SpiIsr(SpiIsr(s)) == SpiIsr(s)
  {
  }

  /** Any number of consecutive byte transfers leaves the same state as one. */
  lemma {:induction false} ManyTransfersAsOne(s: Regs, n: nat)
    requires n >= 1
    ensures Run(s, seq(n, _ => ByteShifted)) == SpiIsr(s)
    decreases n
  {
    var evs := seq(n, _ => ByteShifted);
    assert evs[0] == ByteShifted;
    if n == 1 {
      assert evs[1..] == [];
    } else {
      assert evs[1..] == seq(n - 1, _ => ByteShifted);
      ManyTransfersAsOne(SpiIsr(s), n - 1);
      SpiIdempotent(s);
    }
  }

  // ---------------------------------------------------------------------
  // A whole measurement cycle
  // ---------------------------------------------------------------------

  /** From an idle, armed timer, the capture of the rising edge at tick r and
      of the falling edge at tick f, each followed by a poll, resolve the
      cycle with distance (f - r) mod 2^16, the low byte staged for the bus,
      and the edge counter back at 0. */
  lemma {:induction false} MeasureCycle(s: Regs, r: u16, f: u16)
    requires s.edgeDetect == 0 && s.timerArmed
    ensures var t := Run(s, [Capture, Poll(r), Capture, Poll(f)]);
      && t.edgeDetect == 0 && t.conversionComplete
      && t.risingEdge == r && t.fallingEdge == f
      && t.distance == (f - r) % 0x1_0000
      && (f >= r ==> t.distance == f - r)
      && t.spdr == Low(t.distance)
      && !t.ices1 && t.timerArmed
  {
    var s1 := CaptureIsr(s);
    var s2 := PollBody(s1, r);
    var s3 := CaptureIsr(s2);
    RunAppend(s, [Capture], [Poll(r), Capture, Poll(f)]);
    RunOne(s, Capture);
    RunAppend(s1, [Poll(r)], [Capture, Poll(f)]);
    RunOne(s1, Poll(r));
    RunAppend(s2, [Capture], [Poll(f)]);
    RunOne(s2, Capture);
    RunOne(s3, Poll(f));
    assert [Capture] + [Poll(r), Capture, Poll(f)] == [Capture, Poll(r), Capture, Poll(f)];
    assert [Poll(r)] + [Capture, Poll(f)] == [Poll(r), Capture, Poll(f)];
    assert [Capture] + [Poll(f)] == [Capture, Poll(f)];
  }

  /** A full pass of the main loop from power-up: arm, both edges, teardown.
      The reading survives teardown and the next cycle starts clean. */
  lemma FullCycleFromReset(r: u16, f: u16)
    ensures var t := Run(Init(), [Arm, Capture, Poll(r), Capture, Poll(f), Teardown]);
      && t.distance == Sub16(f, r) && t.spdr == Low(Sub16(f, r))
      && t.edgeDetect == 0 && !t.conversionComplete
      && !t.timerArmed && !t.ices1
  {
    var a := ArmStep(Init());
    RunAppend(Init(), [Arm], [Capture, Poll(r), Capture, Poll(f), Teardown]);
    RunOne(Init(), Arm);
    assert [Arm] + [Capture, Poll(r), Capture, Poll(f), Teardown]
        == [Arm, Capture, Poll(r), Capture, Poll(f), Teardown];
    RunAppend(a, [Capture, Poll(r), Capture, Poll(f)], [Teardown]);
    assert [Capture, Poll(r), Capture, Poll(f)] + [Teardown]
        == [Capture, Poll(r), Capture, Poll(f), Teardown];
    MeasureCycle(a, r, f);
    RunOne(Run(a, [Capture, Poll(r), Capture, Poll(f)]), Teardown);
  }

  // ---------------------------------------------------------------------
  // What the bus master receives
  // ---------------------------------------------------------------------

  /** Once the high byte is staged, every later transfer delivers it again. */
  lemma {:induction false} ServeHighForever(s: Regs, n: nat)
    requires s.spdr == High(s.distance)
    ensures forall k :: 0 <= k < n ==> Serve(s, n)[k] == High(s.distance)
    decreases n
  {
    if n > 0 {
      SpiIdempotent(s);
      assert SpiIsr(s) == s;
      ServeHighForever(s, n - 1);
    }
  }

  /** The first transfer delivers whatever is staged; every later one, until
      another event, delivers the high byte of the distance. */
  lemma {:induction false} ServedBytes(s: Regs, n: nat)
    ensures forall k :: 1 <= k < n ==> Serve(s, n)[k] == High(s.distance)
  {
    if n > 0 {
      var t := SpiIsr(s);
      ServeHighForever(t, n - 1);
      assert Serve(s, n) == [s.spdr] + Serve(t, n - 1);
    }
  }

  /** After a poll resolves the cycle, the master receives the low byte of the
      new distance first and then its high byte on every later transfer; a
      master that joins the second byte (as high) with the first (as low)
      recovers the distance. This is the firmware's order, low byte first. */
  lemma ServeAfterResolve(s: Regs, icr1: u16, n: nat)
    requires s.edgeDetect == 3 && n >= 2
    ensures var d := Sub16(icr1, s.risingEdge);
      var bytes := Serve(PollBody(s, icr1), n);
      && bytes[0] == Low(d)
      && (forall k :: 1 <= k < n ==> bytes[k] == High(d))
      && Join(bytes[1], bytes[0]) == d
  {
    var t := PollBody(s, icr1);
    ServedBytes(t, n);
    SplitJoin(t.distance);
  }

  /** After a timeout every byte the master receives is 0. */
  lemma ServeAfterTimeout(s: Regs, n: nat)
    ensures forall k :: 0 <= k < n ==> Serve(TimeoutIsr(s), n)[k] == 0
  {
  }

  // ---------------------------------------------------------------------
  // The staged SPI byte always belongs to the current distance
  // ---------------------------------------------------------------------

  /** Whatever the interleaving of interrupts, polls and cycle boundaries,
      SPDR holds either the low or the high byte of the current distance,
      so a transferred byte never comes from an older reading than the
      distance held at that moment. */
  lemma {:induction false} RunKeepsCoherent(s: Regs, evs: seq<Event>)
    requires Coherent(s)
    ensures Coherent(Run(s, evs))
    decreases |evs|
  {
    if evs != [] {
      RunKeepsCoherent(Step(s, evs[0]), evs[1..]);
    }
  }

  /** From power-up, any event sequence keeps SPDR coherent with the distance. */
  lemma CoherentFromReset(evs: seq<Event>)
    ensures Coherent(Run(Init(), evs))
  {
    RunKeepsCoherent(Init(), evs);
  }

  // ---------------------------------------------------------------------
  // Behaviour of the code that a reader of its comments may not expect
  // ---------------------------------------------------------------------

  /** Captures are counted, not filtered: three captures before the polling
      loop gets to see edge count 1 resolve the cycle with the rising edge
      left over from before. */
  lemma {:induction false} ExtraCapturesReuseOldRisingEdge(s: Regs, f: u16)
    requires s.edgeDetect == 0 && s.timerArmed
    ensures var t := Run(s, [Capture, Capture, Capture, Poll(f)]);
      t.conversionComplete && t.distance == Sub16(f, s.risingEdge)
  {
    var s1 := CaptureIsr(s);
    var s2 := CaptureIsr(s1);
    var s3 := CaptureIsr(s2);
    RunAppend(s, [Capture], [Capture, Capture, Poll(f)]);
    assert [Capture] + [Capture, Capture, Poll(f)] == [Capture, Capture, Capture, Poll(f)];
    RunOne(s, Capture);
    RunAppend(s1, [Capture], [Capture, Poll(f)]);
    assert [Capture] + [Capture, Poll(f)] == [Capture, Capture, Poll(f)];
    RunOne(s1, Capture);
    RunAppend(s2, [Capture], [Poll(f)]);
    assert [Capture] + [Poll(f)] == [Capture, Poll(f)];
    RunOne(s2, Capture);
    RunOne(s3, Poll(f));
  }

  /** Readings are not framed on the bus: once a reading has been served
      (its high byte staged), the byte after a resolving poll is the low byte
      of the new reading, so the master sees the high byte of one reading
      directly followed by the low byte of the next (the transfer-complete
      handler between them restages the same high byte, so it does not
      affect the poll), and joining those two bytes gives the new reading
      only when both readings share their high byte. */
  lemma HighOfOldBeforeLowOfNew(s: Regs, f: u16)
    requires s.spdr == High(s.distance) && s.edgeDetect == 3
    ensures Run(s, [ByteShifted, Poll(f)]) == PollBody(s, f)
    ensures var t := PollBody(s, f);
      Serve(s, 1) + Serve(t, 1) == [High(s.distance), Low(t.distance)]
    ensures var t := PollBody(s, f);
      (Join(High(s.distance), Low(t.distance)) == t.distance
       <==> High(s.distance) == High(t.distance))
  {
    var t := PollBody(s, f);
    assert SpiIsr(s) == s;
    RunAppend(s, [ByteShifted], [Poll(f)]);
    assert [ByteShifted] + [Poll(f)] == [ByteShifted, Poll(f)];
    RunOne(s, ByteShifted);
    RunOne(s, Poll(f));
    SplitJoin(t.distance);
    JoinSplit(High(s.distance), Low(t.distance));
  }

  /** Teardown does not reset the edge counter: a capture that arrives after
      the cycle resolved and before teardown is carried into the next cycle,
      whose first poll then records a rising edge at once. */
  lemma {:induction false} LateCaptureCarriesOver(s: Regs, icr1: u16)
    requires s.conversionComplete && s.edgeDetect == 0 && s.timerArmed
    ensures var t := Run(s, [Capture, Teardown, Arm]);
      && t.edgeDetect == 1 && t.timerArmed
      && PollBody(t, icr1).risingEdge == icr1
  {
  }

  // ---------------------------------------------------------------------
  // Concrete readings
  // ---------------------------------------------------------------------

  /** Rising edge at tick 100, falling edge at tick 1500: distance 1400, and
      the master receives 1400 & 0xFF == 120, then 1400 >> 8 == 5 on every
      later transfer. */
  lemma ReadingOf1400(s: Regs)
    requires s.edgeDetect == 0 && s.timerArmed
    ensures var t := Run(s, [Capture, Poll(100), Capture, Poll(1500)]);
      t.distance == 1400 && Serve(t, 4) == [120, 5, 5, 5]
  {
  }

  /** A timeout makes both bytes of the next two transfers 0. */
  lemma ReadingAfterTimeout(s: Regs)
    requires s.timerArmed
    ensures Serve(Step(s, Timeout), 2) == [0, 0]
  {
  }
}
