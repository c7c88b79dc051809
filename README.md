# Optical encoder sketches, modelled in Dafny

The repository holds two ESP32 sketches that read an optical rotary encoder.

`opticalEncoderI2CSlave.cpp` is an I2C slave.
- Its interrupt handler counts encoder edges that arrive more than 3 ms after the last counted one.
- Every 16 ms the main loop drains the counter in one atomic step.
- The loop adds the drained count to a running total and turns it into RPM over the measured elapsed time.
- The RPM goes into a seven-slot moving average kept in an array with a running sum.
- The loop publishes a non-negative integer speed.
- When the master polls, `onRequest` sends `speed:<digits>\n`.

`main.cpp` drives a DC motor and reads the same kind of encoder.
- `forward` turns a signed speed into the two H-bridge direction pins and a duty.
- Its interrupt handler `counter` counts an edge only if the loop's clock `t1` moved more than 1 ms since the last counted edge.
- Every 50 ms (`1000 / freq_for_RPM`) the loop drains the counter into `pulses`, adds it to `pulse` and computes `18.75 * pulses` RPM.

The model follows that structure:

- `U32` holds the 32-bit unsigned arithmetic of `uint32_t` and `unsigned long` on the ESP32.
  - Subtraction and addition wrap around.
  - A conversion models the narrowing of `unsigned long` to `int` in two's complement.
- `MovingAverage` is the seven-slot ring buffer.
  - The class `RingAverage` holds the array, `readIndex`, `totalRPM` and `averageRPM`.
  - Its ghost `history` lists every reading pushed.
  - `Window(history)` is the reference definition of the buffer's contents: the last seven of `history`, with zeros in front.
  - `Average(history)` is that window's sum divided by seven.
- `I2cReply` is the request payload and a parser for it, the master's side of the exchange.
- `I2cSlave` holds the first sketch's globals as the fields of class `Slave`.
  - `handleEncoder`, the sampling block of `loop` and `onRequest` are its methods.
  - The ghost field `pending` counts edges accepted since the last snapshot.
  - The ghost field `reported` is the sum of all snapshots.
- `MotorSketch` holds `forward` as a function and the second sketch's globals as the fields of class `Sketch`, with `counter` and `loop` as its methods.

Time is a parameter: every `millis()` reading is a `u32` argument. The RPM and speed arithmetic is over reals.

Four behaviours of the code are easy to misread, and the model states each of them:
- Before seven readings exist the average still divides by seven, so the unwritten zero slots count (`AverageBeforeFull`).
- In `main.cpp`, `counter` compares the loop's `t1`, not the edge's own time. `Counter` therefore reads the field `t1`, which the loop writes, and between two passes of the loop at most one edge is counted (`BurstCountedOnce`).
- The I2C sketch divides by the measured elapsed time `currentTime - lastUpdateTime`, which is at least 16 ms, not by the nominal interval. `Rps` and `Rpm` take that elapsed time.
- Both sketches debounce: by 3 ms against the edge time in the I2C sketch, and by 1 ms against the loop time in `main.cpp`.

## Model

| member | source | states |
|---|---|---|
| U32.Add | opticalEncoderI2CSlave.cpp:95 | unsigned 32-bit `+`: the exact sum below 2^32, the sum minus 2^32 above |
| U32.Sub | opticalEncoderI2CSlave.cpp:48 | unsigned 32-bit `-` yields the distance that, added to the subtrahend, gives the minuend back |
| U32.Inc | opticalEncoderI2CSlave.cpp:49 | `++` raises a counter by exactly one, and 2^32 - 1 wraps to 0 |
| U32.ToInt32 | main.cpp:58 | `int pulses = count` keeps values below 2^31 and turns larger ones negative; converting back restores the count |
| U32.ToU32 | main.cpp:60 | an `int` operand of `pulse += pulses` becomes itself when non-negative, itself plus 2^32 otherwise |
| U32.SubIsUnique | opticalEncoderI2CSlave.cpp:48 | the wrapping difference is the only distance that leads from the old timestamp to the new one |
| U32.SubOfAdd | opticalEncoderI2CSlave.cpp:48 | a timestamp `d` ms after `b`, even across the wrap of `millis()`, is measured as `d` |
| U32.ToInt32OfToU32 | main.cpp:58-60 | narrowing to `int` and widening back to `unsigned long` are inverse |
| U32.AddMod | opticalEncoderI2CSlave.cpp:95 | a wrapping total that receives each snapshot equals the exact sum of the snapshots modulo 2^32 |
| U32.IncMod | opticalEncoderI2CSlave.cpp:49 | a wrapping counter equals the exact number of increments modulo 2^32 |
| I2cReply.Digits | opticalEncoderI2CSlave.cpp:59 | `print(int)` of a non-negative value emits a non-empty digit string with no leading zero |
| I2cReply.Decimal | opticalEncoderI2CSlave.cpp:59 | `print(int)` writes a non-empty string that starts with a minus sign exactly for a negative value, followed by digits only |
| I2cReply.Payload | opticalEncoderI2CSlave.cpp:58-60 | the reply starts with `speed:`, ends with a newline, and for a non-negative speed has only its digits between them |
| I2cReply.ValueOfDigits | opticalEncoderI2CSlave.cpp:59 | the emitted digits denote the printed number |
| I2cReply.DigitsOfValue | opticalEncoderI2CSlave.cpp:59 | every canonical digit string is what `print` emits for the number it denotes |
| I2cReply.DecimalRoundTrip | opticalEncoderI2CSlave.cpp:59 | parsing the printed decimal form of any `int` gives that `int` back |
| I2cReply.ParseDecimalSound | opticalEncoderI2CSlave.cpp:59 | the parser accepts only strings that `print` could have produced |
| I2cReply.PayloadParses | opticalEncoderI2CSlave.cpp:54-61 | the master decodes the value the slave published |
| I2cReply.PayloadParsedOnly | opticalEncoderI2CSlave.cpp:54-61 | a message the master decodes to `v` is exactly the reply sent for `v` |
| I2cReply.PayloadRoundTrip | opticalEncoderI2CSlave.cpp:54-61 | the master decodes value `v` from a message if and only if the message is the reply sent for `v` |
| MovingAverage.SumUpdate | opticalEncoderI2CSlave.cpp:104-108 | subtracting the evicted slot and adding the new reading keeps the running total equal to the sum of the slots |
| MovingAverage.IndexStep | opticalEncoderI2CSlave.cpp:110-114 | proof step for `ConsistentPush`: the slot index of the next push is the current slot index stepped modulo 7 |
| MovingAverage.WindowPush | opticalEncoderI2CSlave.cpp:103-108 | a push evicts the oldest reading of the window and appends the new one |
| MovingAverage.WindowWhenFull | opticalEncoderI2CSlave.cpp:38-39 | after seven pushes the buffer holds exactly the last seven readings |
| MovingAverage.WindowBeforeFull | opticalEncoderI2CSlave.cpp:38-39 | before seven pushes the buffer holds zeros in the unwritten slots, followed by every reading pushed |
| MovingAverage.AverageBeforeFull | opticalEncoderI2CSlave.cpp:116 | before seven readings exist the average is their sum over 7, because the zeroed slots count |
| MovingAverage.AverageWhenFull | opticalEncoderI2CSlave.cpp:116 | after seven readings the average is the mean of the last seven |
| MovingAverage.AveragePush | opticalEncoderI2CSlave.cpp:104-116 | one push moves the average by (new reading - evicted reading) / 7 |
| MovingAverage.ZeroReadingLowersAverage | opticalEncoderI2CSlave.cpp:104-116 | a zero reading never raises an average of non-negative readings |
| MovingAverage.AverageExample | opticalEncoderI2CSlave.cpp:103-116 | readings 10..70 average 40, and an eighth reading 80 evicts 10 and gives 50 |
| MovingAverage.WrapStep | opticalEncoderI2CSlave.cpp:110-114 | proof step for `RingAverage.Push`: incrementing `readIndex` and resetting it to 0 at 7 is the increment modulo 7 |
| MovingAverage.PushRotation | opticalEncoderI2CSlave.cpp:106-114 | writing the slot at `readIndex` and stepping the index keeps the array a rotation of the window, oldest reading at the index |
| MovingAverage.ConsistentPush | opticalEncoderI2CSlave.cpp:103-114 | one push keeps the index, running total and slots consistent with the readings pushed |
| MovingAverage.RingAverage.constructor | opticalEncoderI2CSlave.cpp:38-42 | the buffer starts with seven zero slots, index 0, total 0 and average 0 |
| MovingAverage.RingAverage.Push | opticalEncoderI2CSlave.cpp:103-116 | only the slot at the old `readIndex` changes, to the new reading; the index advances by one modulo 7; the total is updated by the difference and equals the slot sum; the average is total / 7, the average of the window of all readings pushed |
| I2cSlave.Rps | opticalEncoderI2CSlave.cpp:86-100 | revolutions per second, staged as the sketch does: pulses over 128, divided by the elapsed seconds; its closed form and sign are stated by `RpmFormula` |
| I2cSlave.Rpm | opticalEncoderI2CSlave.cpp:101 | the reading pushed into the ring is `Rps * 60`; its closed form, sign and zero case are stated by `RpmFormula` |
| I2cSlave.SpeedKph | opticalEncoderI2CSlave.cpp:117-119 | km/h from revolutions per second through the 0.33 m wheel, `PI` and 3.6; its sign and monotonicity are stated by `PublishedSpeedMonotonic` |
| I2cSlave.Abs | opticalEncoderI2CSlave.cpp:133 | `abs` gives a non-negative value equal to the argument or its negation |
| I2cSlave.RpmFormula | opticalEncoderI2CSlave.cpp:86-101 | `rps * 128 * elapsedMs == pulses * 1000` and `rpm * 128 * elapsedMs == pulses * 60000`; both are non-negative and zero exactly for a window without pulses |
| I2cSlave.RpmExample | opticalEncoderI2CSlave.cpp:100-101 | 64 pulses in one second give 30 RPM |
| I2cSlave.RpmMonotonic | opticalEncoderI2CSlave.cpp:100-101 | over the same window, more pulses never give a lower RPM |
| I2cSlave.StoppedWheelPublishesZero | opticalEncoderI2CSlave.cpp:100-134 | a window without pulses publishes speed 0 |
| I2cSlave.PublishedSpeedMonotonic | opticalEncoderI2CSlave.cpp:100-134 | the km/h speed is never negative, and more pulses in the same window never publish a lower speed |
| I2cSlave.PublishedSpeed | opticalEncoderI2CSlave.cpp:133-134 | the published speed is a non-negative integer, the whole part of the speed's magnitude |
| I2cSlave.EdgeAccepted | opticalEncoderI2CSlave.cpp:48 | the handler's test, the wrapping time since the last accepted edge exceeding 3 ms; read on raw timestamps by `EdgeAcceptedIff` |
| I2cSlave.EdgeAcceptedIff | opticalEncoderI2CSlave.cpp:48 | an edge counts exactly when its distance from the last counted edge exceeds 3 ms, including across the wrap of `millis()` |
| I2cSlave.DebounceBoundary | opticalEncoderI2CSlave.cpp:48 | edges 0 ms and 3 ms after the last counted one are rejected; one 4 ms after counts |
| I2cSlave.Slave.constructor | opticalEncoderI2CSlave.cpp:22-42 | all globals start at zero and the buffer is empty |
| I2cSlave.Slave.HandleEncoder | opticalEncoderI2CSlave.cpp:46-52 | on an accepted edge `pulseCount` rises by one and `lastRead` becomes the edge time; on a rejected edge both are unchanged; afterwards a second edge at the same time would be rejected; nothing else changes |
| I2cSlave.Slave.TakeSnapshot | opticalEncoderI2CSlave.cpp:89-92 | the snapshot returns the counter, which is the edges accepted since the last snapshot modulo 2^32, and leaves it zero |
| I2cSlave.Slave.Accumulate | opticalEncoderI2CSlave.cpp:95 | `totalPulses` grows by the snapshot with wrap-around and stays the sum of all snapshots modulo 2^32 |
| I2cSlave.Slave.Sample | opticalEncoderI2CSlave.cpp:86-135 | the counter is drained and reset; `totalPulses` grows by the snapshot; the RPM over the measured elapsed time is pushed into the ring, whose average is that of the window of all readings; `finalSpeed` is the truncated magnitude of the km/h speed; `lastUpdateTime` becomes the current time; the debounce state is unchanged; every reading in the ring stays non-negative, so a window without pulses never raises the average |
| I2cSlave.Slave.Loop | opticalEncoderI2CSlave.cpp:81-136 | sampling runs exactly when at least 16 ms passed and otherwise changes nothing; when it runs: the counter is drained into `totalPulses`, the RPM over the elapsed time is pushed into the ring, the average is the window's, `finalSpeed` is the non-negative published speed, a window without pulses never raises the average, and `lastUpdateTime` becomes the current time |
| I2cSlave.Slave.OnRequest | opticalEncoderI2CSlave.cpp:54-61 | the reply is `speed:`, then the digits of the non-negative `finalSpeed`, then a newline, and the master decodes it to `finalSpeed` |
| MotorSketch.Forward | main.cpp:25-35 | the two direction pins always differ; IN1 is high exactly for a positive speed; the duty is never negative; direction and duty together give back the signed speed |
| MotorSketch.Rpm | main.cpp:62 | the RPM is zero exactly when `pulses` is zero and has the sign of `pulses` |
| MotorSketch.SampleConstants | main.cpp:17 | the window is 50 ms and each pulse is worth 18.75 RPM |
| MotorSketch.RpmIsRevolutionsPerMinute | main.cpp:55-62 | the formula is revolutions per window (64 pulses per revolution) times windows per minute |
| MotorSketch.EdgeCounted | main.cpp:20 | `counter`'s test, the wrapping distance from `t2` to the loop's `t1` exceeding 1 ms; its boundary is stated by `EdgeCountedBoundary` |
| MotorSketch.EdgeCountedBoundary | main.cpp:20 | an edge is counted only if the loop clock moved more than 1 ms: a gap of exactly 1 is rejected and a gap of 2 counts |
| MotorSketch.Sketch.constructor | main.cpp:11-15 | `t1`, `t2` and `t3` start at one `millis()` reading, and the counters at zero |
| MotorSketch.Sketch.Setup | main.cpp:38 | `setup` rereads the clock into `t1` |
| MotorSketch.Sketch.Counter | main.cpp:19-24 | on a counted edge `count` rises by one and `t2 := t1`; otherwise both are unchanged; afterwards no edge is counted until the loop moves `t1` |
| MotorSketch.Sketch.Loop | main.cpp:50-69 | `forward` is applied and `t1` becomes the current time; the window closes exactly when `t1 - t3 >= 50`, and then: `t3 := t1`; `pulses` is the old count narrowed to `int`; the count is zero; `pulse` grows by exactly the old count, so it is the sum of all snapshots modulo 2^32; the RPM is `Rpm(pulses)`. Otherwise only `t1` changes |
| MotorSketch.BurstCountedOnce | main.cpp:19-23 | two edges between passes of the loop add at most one to the count |

## Left out

- Pin set-up, `attachInterrupt`, `Serial.begin`, `Wire.begin` and `Wire.onRequest` registration, and all `Serial.print` output with its precision digits: this is hardware and transport plumbing. `Sketch.Loop` returns what it prints as a value.
- `millis()` is a parameter of the methods that read it, and `analogRead` with `map` (main.cpp:51-52) is the `speed` parameter of `Sketch.Loop`. Neither library's source is part of this model. The global `speed` only carries that value into `forward`, so it is not a field.
- Interrupt preemption inside a pass of the loop: `Slave.Loop` and `Sketch.Loop` are each one atomic step, so the interrupt handler runs only between passes of the loop. The model therefore cannot reach outcomes of an edge that arrives in the middle of a pass. For example, in `main.cpp` an edge that arrives after `t1 = millis()` (main.cpp:54) and before `noInterrupts()` (main.cpp:57) is tested against the new `t1` and drained into the current window. In the I2C sketch an edge between `millis()` (opticalEncoderI2CSlave.cpp:82) and `noInterrupts()` (opticalEncoderI2CSlave.cpp:89) is likewise drained into the current window. The `noInterrupts()`/`interrupts()` section itself is atomic in the sketches too (`Slave.TakeSnapshot`, and the marked block of `Sketch.Loop`).
- Floating point: the RPM, the ring buffer's readings, its total and its average are reals, so the float total does not drift in the model.
- The speed conversion (opticalEncoderI2CSlave.cpp:117-119) uses the wheel diameter 0.33 m, the Arduino core's `PI` to 32 digits and 3.6, over reals. The averaged speeds `avgmps` and `avgKPH` (opticalEncoderI2CSlave.cpp:118-120) are only printed and are left out.
- I2cSlave.PublishedSpeed: does not model that `static_cast<int>` of a value beyond the `int` range is undefined; the model gives the unbounded floor.
- MotorSketch.Forward: does not model that `-rightSpeed` overflows for `rightSpeed == -2^31`; the model gives a duty of 2^31. In the sketch `speed` comes from `map(analogRead(pot), 0, 1024, 50, 255)`; the ESP32's 12-bit `analogRead` returns 0..4095 and `map` does not clamp, so `speed` lies in 50..869 and is never negative.
- `rotations` and `totalRotations` (opticalEncoderI2CSlave.cpp:96-97) are computed but never used.
- `I2cReply.ParsePayload` models the master's reading of the reply. The master's code is not part of this model.
