# HCSR04Bridge — a Dafny model of the sonar-to-SPI firmware

The firmware (one C file, `main.c`, for an 8-bit AVR) fires the HC-SR04 trigger pin and then uses timer 1's input-capture unit to timestamp the rising and the falling edge of the echo. It stores the difference, in timer ticks, as a 16-bit `distance` and hands it to the SPI peripheral in slave mode, one byte per transfer. A compare-match interrupt at `TIMEOUT` ticks ends a cycle that gets no echo, with distance 0.

The model has four modules:

- `Bytes` (bytes.dfy): `uint8_t`/`uint16_t` as the int subset types `u8`/`u16`. It holds the `low`/`high` macros (`Low`, `High`), how a master rejoins the two bytes (`Join`), the wrapping `uint16_t` subtraction (`Sub16`) and the wrapping `uint8_t` increment (`Inc8`).
- `Sonar` (sonar.dfy): the firmware's shared state as the value `Regs`. Each atomic step is a function: `time_stamp`, one pass of the polling-loop body, the three interrupt handlers, and the arm and teardown steps of `main`. It also has an event type with `Step`/`Run` for interleavings, and `Serve`, the bytes a bus master reads from back-to-back transfers.
- `SonarProps` (sonar_props.dfy): lemmas. They cover the effect of each step, a whole measurement cycle, the byte sequence on the bus, and the invariant that SPDR always holds a byte of the current distance.
- `Firmware` (bridge.dfy): class `Bridge`. Its fields are the volatile globals, the two persistent locals of `main` (`risingEdge`, `fallingEdge`), the edge-select bit ICES1, SPDR and an abstract "timer armed" flag. There is one method per step, each proved to perform a `Sonar` transition. `PollBody` and `TimeStamp` have the same names in both modules. The other pairs are `SpiTransferComplete`/`SpiIsr`, `TimerCompareMatch`/`TimeoutIsr`, `TimerCapture`/`CaptureIsr`, `Arm`/`ArmStep` and `Teardown`/`TeardownStep`.

Each interrupt handler is one atomic step; so are the arm sequence, one whole pass of the polling-loop body and the teardown sequence (see "## Left out" for what that loses). The capture value ICR1 is a parameter of the poll step. Interrupt delivery is an event chosen by the environment, and the timer interrupts are delivered only while the timer is armed. `Step` and `Run` accept every event in every state, including orders the main loop never produces (a poll while the timer is disarmed or after completion, `Arm` and `Teardown` in any order). What is proved for all runs, such as `RunKeepsCoherent`, therefore also holds for the runs the firmware actually makes.

Behaviour of the code worth knowing:

- **Byte order.** When a cycle resolves, SPDR gets `low(distance)` (main.c:87). After that, every transfer-complete interrupt reloads `high(distance)` (main.c:125). So the master receives the low byte first, then the high byte on every later transfer (`ServeAfterResolve`). The bus carries no framing: the high byte of one reading can arrive directly before the low byte of the next (`HighOfOldBeforeLowOfNew`).
- **A worked reading.** Edges at ticks 100 and 1500 give distance 1400; the master receives `1400 & 0xFF == 120`, then `1400 >> 8 == 5` on every later transfer (`ReadingOf1400`).
- **Teardown.** Teardown (main.c:95-100) does not reset `edgeDetect`. A capture between resolution and teardown is carried into the next cycle (`LateCaptureCarriesOver`).
- **Extra captures.** Captures are counted, not filtered. Three captures before a poll resolve the cycle against the previous cycle's rising edge (`ExtraCapturesReuseOldRisingEdge`).
- **Teardown and ICES1.** Writing `TCCR1B = 0x00` in teardown also clears ICES1. The model records this.

`& 0x00FF` and `>> 8` on a non-negative 16-bit value are written as `% 256` and `/ 256`. On avr-gcc `int` is 16 bits, so `uint16_t` is `unsigned int`: `fallingEdge - risingEdge` is an unsigned subtraction that wraps modulo 2^16 by itself (`Sub16`). `edgeDetect++` promotes the `uint8_t` to `int` and truncates the sum to 8 bits when it is stored back (`Inc8`).

## Model

| member | source | states |
|---|---|---|
| Bytes.Low | main.c:27 | `low(x)` is the byte that agrees with x modulo 256 |
| Bytes.High | main.c:28 | `high(x)` is the byte h with `h * 256 <= x < h * 256 + 256` |
| Bytes.Join | main.c:27-28 | the joined value has `hi` as its high byte (`/ 256`) and `lo` as its low byte (`% 256`) |
| Bytes.SplitJoin | main.c:27-28 | for every 16-bit x, `high(x) * 256 + low(x) == x`: the two bytes together give the value back |
| Bytes.JoinSplit | main.c:27-28 | `high` and `low` of a joined pair return the two bytes joined |
| Bytes.BytesDetermine | main.c:27-28 | two 16-bit values with the same high and low byte are equal |
| Bytes.Sub16 | main.c:86 | `fallingEdge - risingEdge` stored in a `uint16_t` is the difference modulo 2^16; adding back `risingEdge` modulo 2^16 gives `fallingEdge`; with no wrap it is the exact difference |
| Bytes.Inc8 | main.c:113 | `edgeDetect++` on a `uint8_t` is `+1` modulo 256: 255 wraps to 0 |
| Sonar.Init | main.c:36-52 | at power-up the edge count, distance and SPDR are 0, completion is clear, the timer is stopped, and SPDR is a byte of the distance |
| Sonar.TimeStamp | main.c:110-121 | returns ICR1; c == 0 adds one to the edge count modulo 256 and clears ICES1; c == 1 resets the count; each changes nothing else, and any other c changes nothing |
| Sonar.PollBody | main.c:77-91 | a poll at edge count 1 records ICR1 as the rising edge, moves the count to 2 and selects the falling edge, and changes nothing else; at edge count 3 it records the falling edge, sets distance to the wrapped difference, stages its low byte in SPDR, resets the count and raises completion; at any other count it changes nothing |
| Sonar.CaptureIsr | main.c:137-139 | the capture handler adds one to the edge count modulo 256 and changes nothing else |
| Sonar.TimeoutIsr | main.c:129-135 | from any state the timeout handler raises completion, resets the edge count, and zeroes distance and SPDR; nothing else changes |
| Sonar.SpiIsr | main.c:124-126 | the SPI handler sets SPDR to `high(distance)` and changes nothing else |
| Sonar.ArmStep | main.c:68-72 | arming selects the rising edge and arms the timer; nothing else changes |
| Sonar.TeardownStep | main.c:95-100 | teardown clears completion and ICES1 and disarms the timer; the edge count, distance, SPDR and edge values are kept |
| Sonar.Step | main.c:77-139 | a step that changes the distance is a poll at edge count 3 or a timeout while armed; timer events while disarmed change nothing; every step keeps SPDR a byte of the current distance |
| Sonar.Serve | main.c:124-126 | n transfers give n bytes, the first being the byte staged in SPDR |
| SonarProps.RunAppend | main.c:56-101 | running two event sequences one after the other equals running their concatenation |
| SonarProps.RunOne | main.c:56-101 | a one-event run is one step |
| SonarProps.SpiIdempotent | main.c:124-126 | running the SPI handler twice equals running it once |
| SonarProps.ManyTransfersAsOne | main.c:124-126 | any number (at least one) of consecutive transfers leaves the same state as one |
| SonarProps.MeasureCycle | main.c:78-89 | from edge count 0 with the timer armed, capture, poll(r), capture, poll(f) ends with count 0, completion raised, rising edge r, falling edge f, distance `(f - r) mod 65536` (exactly `f - r` when `f >= r`) and `low(distance)` staged |
| SonarProps.FullCycleFromReset | main.c:36-101 | from power-up, arm, both edges and teardown leave distance `f - r` (wrapped), its low byte in SPDR, count 0, completion cleared and the timer disarmed |
| SonarProps.ServeHighForever | main.c:124-126 | once the high byte is staged, every later transfer delivers it |
| SonarProps.ServedBytes | main.c:124-126 | after the first transfer, every transfer delivers the high byte of the distance |
| SonarProps.ServeAfterResolve | main.c:83-89 | after a resolving poll the master gets `low(d)` first and then `high(d)` on every later transfer; joining the second byte as high with the first as low gives `d` |
| SonarProps.ServeAfterTimeout | main.c:129-135 | after a timeout every transferred byte is 0 |
| SonarProps.RunKeepsCoherent | main.c:56-139 | every sequence of events keeps SPDR equal to a byte of the current distance |
| SonarProps.CoherentFromReset | main.c:36-139 | from power-up, whatever events happen, SPDR holds a byte of the current distance |
| SonarProps.ExtraCapturesReuseOldRisingEdge | main.c:77-91 | three captures before a poll resolve the cycle using the rising edge left over from before |
| SonarProps.HighOfOldBeforeLowOfNew | main.c:83-89 | once a reading's high byte is staged, a transfer followed by a resolving poll leaves the state of the poll alone, and the two bytes the master receives across them are the old high byte and the new low byte; joining those two bytes gives the new reading only when both readings share their high byte |
| SonarProps.LateCaptureCarriesOver | main.c:95-100 | a capture between resolution and teardown survives teardown and arm as edge count 1, and the next poll records a rising edge at once |
| SonarProps.ReadingOf1400 | main.c:83-89 | edges at ticks 100 and 1500 give distance 1400 and the bytes 120, 5, 5, 5 |
| SonarProps.ReadingAfterTimeout | main.c:129-135 | after a timeout the next two transfers deliver 0, 0 |
| Firmware.Bridge.constructor | main.c:36-52 | the power-up state: all globals, the edge values and SPDR are 0, and the timer is stopped |
| Firmware.Bridge.TimeStamp | main.c:110-121 | returns ICR1; c == 0 advances the edge count and clears ICES1; c == 1 resets the count; any other c changes nothing |
| Firmware.Bridge.PollBody | main.c:77-91 | performs exactly the `Sonar.PollBody` transition on the fields |
| Firmware.Bridge.SpiTransferComplete | main.c:124-126 | SPDR becomes `high(distance)`; no other field changes |
| Firmware.Bridge.TimerCompareMatch | main.c:129-135 | completion raised, count, SPDR and distance 0; the edge values, ICES1 and the timer state unchanged |
| Firmware.Bridge.TimerCapture | main.c:137-139 | the edge count goes up by one modulo 256; nothing else changes |
| Firmware.Bridge.Arm | main.c:68-72 | rising edge selected and timer armed; nothing else changes |
| Firmware.Bridge.Teardown | main.c:95-100 | completion cleared, ICES1 cleared, timer disarmed; edge count and distance kept |

## Left out

- Peripheral register encodings: the DDRx, SPCR, TCCR1B prescaler and WGM bits, the TIFR1 and TIMSK1 masks, and the `OCR1A = TIMEOUT` setting. They are reduced to the ICES1 bit and one "timer armed" flag. `TIMEOUT` (40000) only decides when the timeout event comes, and the environment chooses that.
- The trigger pulse (the `PIND` toggles and `_delay_us(10)`) and the 200 µs quiet delay. They are physical timing.
- The free-running counter, `TCNT1 = 0`, and how ICR1 gets its value. The capture value is a parameter of the poll step, and the model does not check that it belongs to the selected edge.
- Preemption inside a step. Each handler is atomic, and so are three main-loop sequences that the code does not fully protect with `cli`/`sei`: the arm sequence (main.c:68-72, unguarded), the whole poll body (main.c:77-91: two critical sections plus two unguarded tests of `edgeDetect`) and the teardown sequence (main.c:95-100, guarded only around `TCNT1 = 0`). Lost with this: a capture between the `edgeDetect == 1` test and its `cli`, and a compare-match between `conversionComplete = 0` (main.c:95) and `TCCR1B = 0x00` (main.c:96), which raises completion again and zeroes the reading, so that the next cycle's `while(conversionComplete == 0)` exits at once. The 16-bit `distance` itself cannot tear: it is written only inside the `cli` section of the poll body (main.c:84-89) and in the compare-match handler (main.c:133), and read only there and in the SPI handler (main.c:125), and AVR interrupt handlers do not nest.
- SPI write collisions: writing SPDR while a transfer is in progress.
- The `while(1)` and `while(conversionComplete == 0)` loops as loops. Only their bodies are modelled, as steps, and arbitrary interleavings as `Run`. Termination and liveness are not modelled. The busy-wait can spin until a timeout once extra captures push `edgeDetect` past 3.
- "After N completed cycles a slow enough poller observes N values" is not modelled. It needs a model of the master's timing, and with the firmware's byte order the low byte of a reading is served only once.
- `conversionComplete` is a `uint8_t` that the code only ever sets to 0 or 1. It is a `bool` here.
