# Syringe pump motor control and profile conversion, modelled in Dafny

This project models the core of a flow-calibration rig. A stepper-drive syringe pump is driven over a
Modbus field bus by the C# class `MotorControl`. The class `ProfileConverter` turns flow and volume
profiles into piston positions and velocities, and back.

The model covers:

- **Arming the torque interlock.** `CreateEvent` programs a device-resident event, and the torque limit
  is written after it.
- **The homing search `goToHome`.** A range check on the linear sensor comes first. Then a stepping
  loop moves the drive towards the 10 mm home position in 20-tick or 1-tick steps.
- **The time axis of the device log.** `createTimeVector` appends 500 time points and computes the
  log period factor.
- **Logging set-up and retrieval.** `setupLogging` selects the logged channels and starts logging.
  `saveLoggedValues` reads 4 × 500 words and reinterprets two channels as signed 16-bit numbers.
- **The playback loop.** It busy-waits on the stopwatch and releases one target per scheduled time.
- **The whole run.** `RunTickSequence` and its two front ends, `RunWithPosition` and `RunWithVelocity`,
  are modelled end to end, with every unit conversion between millimetres, drive ticks, device time
  and sensor words.
- **The profile converter.** Integration by left rectangles, flow to position and velocity, and the
  inverse conversions.

Modules:

| module | contents |
|---|---|
| `Words` | 16-bit words and the two's-complement reinterpretation |
| `Hardware`, `Register`, `Mode` | the constant bundles |
| `Units` | the list conversions and `Math.Round`/`Math.Ceiling` |
| `Transport` | the bus |
| `Interlock` | the interlock |
| `Homing` | the homing search |
| `Logging` | the device log |
| `Playback` | the stopwatch-driven release of targets |
| `Run` | a run's effects as functions of its inputs |
| `Motor` | the class `MotorControl`, whose methods update the recorded and logged lists |
| `Flow` | the profile converter's mathematics |
| `Profile` | the class `ProfileConverter`, whose methods build their lists in loops as the C# does |

### How the environment is represented

**The bus.** `ModbusCommunication` is the class `Transport.Bus`.

- It keeps a trace of every register write: address, value, and the static width of the C# value (`Int16`, `Int32` or `ushort`).
- It keeps a trace of every read.
- A reply function `reply: nat -> int` gives the word returned by the k-th read overall.
- It keeps a ghost timeline of events. Every write, every read and every stopwatch reading is noted there in the order it happens.

Every method of `MotorControl` states its effect as the exact sequence of writes and reads it appends to these traces. It also states the events it appends to the timeline. Lemmas then prove two things:

- what the device is left in: the last value written to the mode, target, time and log-state registers;
- the order of the run. Each homing target is written right after the sensor read it is computed from. Each playback target is written right after a stopwatch reading that has reached its time.

**The stopwatch.** It is a function `clock: nat -> real` giving the k-th reading of `Elapsed`. Each reading the code takes is noted on the timeline.

**Loops that may never end.** Two loops in the source can run forever: the homing loop (a sensor that never reports home) and the playback loop (a stopwatch that never reaches the last time). These loops are given ghost witnesses. `homeAt` is a later read that lies in the home window, and `deadline` is a clock reading that has passed every scheduled time.

**Exceptions.** A thrown exception is an `Outcome`/`Result` error value: `LengthMismatch`, `IndexOutOfRange` or `SensorOutOfRange`.

### Where the code and the design description differ

The model follows the code in each case.

- **Empty schedule.** An empty schedule is not rejected before any write. The length check passes, the interlock is armed (seven writes), and `createTimeVector` then throws when it looks up the last time (`Run.RunOutcome`, `Run.FailuresNeverStart`).
- **Log time axis.** The axis is appended to `LoggedTime` before homing. A run that fails in homing keeps it (`Run.LogAlignment`).
- **Logging mode.** Logging is always set up with `Position == 0`, the velocity channel selection, whatever the run mode. Channel 1 therefore holds speed words, which are converted as positions (`Run.RunLists`).
- **Playback writes.** Playback writes every target, one per scheduled time, in order. Nothing is coalesced (`Run.TargetsInOrder`). On the bus's timeline, each target write comes right after a stopwatch reading that has reached its time. Every reading since the previous target's recorded reading had not reached it (`Motor.MotorControl.PlayTargets`, `Playback.PlaybackOrder`).
- **`Integrate`.** Its comment says the first value is lost. The code drops the contribution of the last `y` sample (`Flow.IntegrateLosesLastSample`).
- **`PositionToFlow` lengths.** The code never compares the number of times with the number of positions. Extra times are ignored. A missing time shows up only as an index error when it is looked up (`Flow.Flows`).
- **`uns16ToVDc`.** It multiplies by the integer quotient `5 / 65535`, which is 0, so every logged pressure is 0.0 (`Units.PressureChannelIsZero`, `Run.LoggedRanges`).

## Model

| member | source | states |
|---|---|---|
| Words.Wrap16 | Model/MotorControl.cs:599 | the `(ushort)` cast: a 16-bit unsigned word congruent to the input modulo 65536 |
| Words.AsInt16 | Model/MotorControl.cs:599-605 | the `(ushort)` cast then `BitConverter.ToInt16`: a signed 16-bit value congruent to the input modulo 65536 |
| Words.DecodeWord | Model/MotorControl.cs:599-605 | words below 32768 decode to themselves and the others to themselves minus 65536; 65535 decodes to -1; decoding is idempotent |
| Words.InRangeUnchanged | Model/MotorControl.cs:599-605 | a value already in the signed 16-bit range is unchanged by the reinterpretation |
| Words.DecodeCongruent | Model/MotorControl.cs:599-605 | values congruent modulo 65536 decode alike |
| Units.Round | Model/MotorControl.cs:348 | `Math.Round`: within one half of its argument, and exact on integers |
| Units.Ceiling | Model/MotorControl.cs:527 | `Math.Ceiling`: the least integer not below its argument |
| Units.MotorSpeedToVelocity | Model/MotorControl.cs:333-341 | one velocity per speed word; each value is stated by ScaleFactors |
| Units.PositionToTick | Model/MotorControl.cs:343-351 | one tick per position; each value is stated by PositionQuantisation |
| Units.VelocityToTicksPerSecond | Model/MotorControl.cs:354-362 | one drive velocity per velocity; each value is stated by VelocityQuantisation |
| Units.TickToPosition | Model/MotorControl.cs:365-373 | one position per tick; each value is stated by TickRoundTrip |
| Units.TicksPerSecondToVelocity | Model/MotorControl.cs:376-384 | one velocity per drive velocity; each value is stated by VelocityTickRoundTrip |
| Units.TimeToSeconds | Model/MotorControl.cs:387-395 | one time in seconds per device time; each value is stated by ScaleFactors |
| Units.MotorTorquesToTorques | Model/MotorControl.cs:398-406 | one torque per torque word; each value is stated by ScaleFactors |
| Units.MotorPressureToPressure | Model/MotorControl.cs:409-417 | one pressure per word; each value is stated by ScaleFactors |
| Units.Uns16ToLinPos | Model/MotorControl.cs:420-429 | one linear position per sensor word; each value is stated by LinearSensorScale |
| Units.Uns16ToVdc | Model/MotorControl.cs:432-440 | one voltage per analog word; each value is stated by PressureChannelIsZero |
| Units.TickRoundTrip | Model/MotorControl.cs:343-373 | a tick is -1/128 mm; converting a tick to mm and back gives the same tick |
| Units.PositionQuantisation | Model/MotorControl.cs:343-351 | a position becomes minus the rounded 128 ticks per mm; converting back is within 1/256 mm; the sign is inverted |
| Units.VelocityTickRoundTrip | Model/MotorControl.cs:354-384 | a drive velocity unit is -1/80 mm/s; converting to mm/s and back gives the same value |
| Units.VelocityQuantisation | Model/MotorControl.cs:354-362 | a velocity becomes minus the rounded 80 units per mm/s; converting back is within 1/160 mm/s; the sign is inverted |
| Units.DeviceRoundTrips | Model/MotorControl.cs:343-384 | both list conversions from device units and back are the identity on tick lists |
| Units.PositionTicksStable | Model/MotorControl.cs:343-373 | converting a position profile to ticks is stable under a round trip, and each position comes back within 1/256 mm |
| Units.PressureChannelIsZero | Model/MotorControl.cs:432-440 | every converted analog value is 0.0, because `5 / 65535` is an integer division |
| Units.LinearSensorScale | Model/MotorControl.cs:420-429 | each linear position is the raw word times 100/65420 mm, the same scale the homing search uses |
| Units.ScaleFactors | Model/MotorControl.cs:333-417 | time is counts/2000, torque is mNm/1000, pressure is the raw word, and a speed word is minus 1/256 of it |
| Transport.Bus.RunModbus | Model/MotorControl.cs:160-165 | a register write appends exactly one write (address, value, width) to the trace and to the timeline, and reads nothing |
| Transport.Bus.ReadModbus | Model/MotorControl.cs:446 | a register read appends exactly one read to the trace and to the timeline, and returns the reply to that read's index |
| Interlock.EventLayout | Model/MotorControl.cs:141-166 | an event is six writes at the trigger-data, trigger-register, control, destination, source-data and source-register bases plus the event number |
| Interlock.ArmingWrites | Model/MotorControl.cs:192-202 | arming writes event 0 (bitmask 32 on the status register, AND logic 0xF007, destination the mode register) and then torque limit 200; it sets no mode, target or log state |
| Homing.SearchTargets | Model/MotorControl.cs:467-509 | the targets written by the search loop, one per sensor read until a read inside the home window; at least one and no more than the reads up to `homeAt` |
| Homing.StepDirection | Model/MotorControl.cs:476-496 | the target rises above 10.01 mm and falls below 9.99 mm; the step is 20 further than 0.5 mm from home and 1 otherwise; inside the window the target is kept |
| Homing.NoDeadBand | Model/MotorControl.cs:486-503 | no sensor word converts to exactly 9.99 or 10.01 mm, so every iteration either steps or ends the search |
| Homing.SearchShape | Model/MotorControl.cs:467-509 | every read before the last is outside the window, the last is inside, and each target follows from the read and the previous target |
| Homing.FinalWriteRepeats | Model/MotorControl.cs:498-508 | the final iteration writes the previous target again |
| Homing.SearchCharacterised | Model/MotorControl.cs:467-509 | a target list has the shape of a search exactly when it is the search's list |
| Homing.SearchEventsOrder | Model/MotorControl.cs:467-509 | on a search's timeline, sensor read j comes right before target write j, which comes right before read j + 1; the first 2j events are the first j steps |
| Homing.OfSearchEvents | Model/MotorControl.cs:467-509 | a search's timeline holds exactly its target writes and one sensor read per target |
| Homing.HomingLayout | Model/MotorControl.cs:443-517 | a homing's timeline is the range-check read, the five reset writes, two events per search step and the three closing writes |
| Homing.OfHomingEvents | Model/MotorControl.cs:443-517 | a homing's timeline holds exactly its write trace and one sensor read more than it has targets |
| Homing.HomingOrder | Model/MotorControl.cs:443-517 | the order of `goToHome`: the range-check read first, then the reset writes; for each step j the (j + 2)-th read comes right before target j, which is computed from that read's reply and the previous target; the closing writes last |
| Logging.TimeAxis | Model/MotorControl.cs:532-538 | the time axis has 500 points |
| Logging.LogReads | Model/MotorControl.cs:579-593 | log retrieval is 4 reads per sample |
| Logging.LogChannel | Model/MotorControl.cs:587-590 | one channel's words are 500 words |
| Logging.Decoded | Model/MotorControl.cs:594-605 | decoding keeps the number of words |
| Logging.TimeAxisCoversRun | Model/MotorControl.cs:520-540 | the period factor is the ceiling of 4 × max time and the register factor is one less; the 500 points start at 0, are evenly spaced by factor/2000 s, span the run, and one factor less would not |
| Logging.TimeAxisIsSampleClock | Model/MotorControl.cs:532-538 | the axis is sample index × factor converted as device time |
| Logging.LogPeriodWidth | Model/MotorControl.cs:565 | the `(short)` period fits 16 bits for runs up to 8192 s, and wraps to -32768 at 8192.25 s |
| Logging.ChannelSelection | Model/MotorControl.cs:545-569 | the four channel registers get position+1 (or speed), target+1, pressure and linear position, then the period and log state 2 |
| Logging.LogReadsLayout | Model/MotorControl.cs:579-590 | read 4j + ch is register 1000 × (ch+1) + j |
| Logging.DecodedRange | Model/MotorControl.cs:594-605 | decoded words lie in the signed 16-bit range, in-range words are kept, 65535 becomes -1, and decoding is idempotent |
| Playback.FirstAtLeast | Model/MotorControl.cs:285-295 | the first stopwatch reading from a given one that reaches a scheduled time; every reading before it is earlier |
| Playback.Releases | Model/MotorControl.cs:284-297 | one releasing reading per scheduled target |
| Playback.RecordedTimes | Model/MotorControl.cs:293 | one recorded time per target |
| Playback.ReleasedUnique | Model/MotorControl.cs:284-297 | any reading sequence that obeys the loop's release rule is a prefix of the releases |
| Playback.RecordedAreStamps | Model/MotorControl.cs:293 | the recorded times are the readings right after each release |
| Playback.ReleaseAt | Model/MotorControl.cs:284-297 | target i is released by the first reading reaching its time after the previous target's recording reading |
| Playback.PlaybackTiming | Model/MotorControl.cs:284-297 | the releasing readings: each has reached its write's time, every reading between the previous write's recorded reading and it is earlier than that time, and they increase by at least 2 |
| Playback.PlaybackOrder | Model/MotorControl.cs:284-297 | on a playback's timeline, write i comes after the blocks of writes 0..i-1, right after the readings that had not reached times[i] and the one that has; the reading recorded for it follows |
| Playback.PlaybackOrderAt | Model/MotorControl.cs:284-297 | the same layout for one write i |
| Playback.BlockLayout | Model/MotorControl.cs:287-294 | one write's block: the readings waited through, in order, the releasing reading, the target write and the recording reading |
| Playback.PlayEventsPrefix | Model/MotorControl.cs:284-297 | the timeline of the first i writes, followed by the block of write i, is a prefix of the whole playback's timeline |
| Playback.OfPlayEvents | Model/MotorControl.cs:284-297 | a playback's timeline holds exactly the target writes in schedule order and no register read |
| Playback.PlayTraceIsPlayEvents | Model/MotorControl.cs:284-297 | the timeline the loop produces from its first state is the block-by-block timeline of the releases |
| Playback.PlaybackFinished | Model/MotorControl.cs:284-297 | once the loop has released every write, its readings are the releases and its timeline is their block-by-block timeline |
| Playback.RecordedBounds | Model/MotorControl.cs:288-293 | each recorded time is at least its scheduled time, and the recorded times are nondecreasing |
| Playback.RecordedAfterSchedule | Model/MotorControl.cs:288-293 | each recorded time is at least its scheduled time |
| Playback.RecordedNondecreasing | Model/MotorControl.cs:284-297 | recorded times never decrease |
| Run.Zeros | Model/MotorControl.cs:247-249 | a freshly allocated `Int32` array holds zeros |
| Run.RunOutcome | Model/MotorControl.cs:221-227 | a run completes exactly when the lists have equal nonzero length and the first sensor reading is in the travel range |
| Run.TargetsInOrder | Model/MotorControl.cs:284-303 | a completed run writes the targets in schedule order at one known offset, followed by exactly the three stop writes |
| Run.PlaybackConditions | Model/MotorControl.cs:269-281 | before the first target, the mode register holds the run mode, device time is 0 and logging is on |
| Run.RunEndsSafe | Model/MotorControl.cs:298-303 | a completed run leaves the motor off, the target 0 and logging stopped |
| Run.FailuresNeverStart | Model/MotorControl.cs:221-238 | a failed run never sets a mode, a target or the log state; a length mismatch writes nothing; only a sensor failure reads, once |
| Run.LogAlignment | Model/MotorControl.cs:264-317 | each scheduled run appends 500 time points; a completed run leaves 500 samples in every logged list; a failed run changes nothing else |
| Run.RecordedAfterRun | Model/MotorControl.cs:319-328 | after a completed run the recorded lists have one entry per target; motor-side values are zero and times are at or after schedule and nondecreasing; pressures and linear positions are untouched |
| Run.RunTimeline | Model/MotorControl.cs:221-329 | a run's timeline holds exactly the run's write trace and read trace, in order, for every outcome; all it adds between them are stopwatch readings |
| Run.LoggedRanges | Model/MotorControl.cs:307-317 | logged positions lie in (-256, 256] mm, logged targets in [-409.6, 409.6] mm/s, and logged pressures are all 0 |
| Motor.MotorControl.CreateEvent | Model/MotorControl.cs:141-166 | appends the six event writes, to the trace and the timeline, and reads nothing |
| Motor.MotorControl.constructor | Model/MotorControl.cs:170-203 | all lists start empty, and the bus's trace and timeline receive exactly the arming writes |
| Motor.MotorControl.ArmInterlock | Model/MotorControl.cs:229-238 | appends the event writes and the torque limit, to the trace and the timeline |
| Motor.MotorControl.ResetDrive | Model/MotorControl.cs:270-277 | appends motor off, speed 0, position 0, target 0, the run mode and time 0, to the trace and the timeline |
| Motor.MotorControl.StopDrive | Model/MotorControl.cs:298-303 | appends log stop, target 0 and motor off, to the trace and the timeline |
| Motor.MotorControl.RunWithPosition | Model/MotorControl.cs:206-210 | a run of the positions as ticks in position-ramp mode, with the whole run's writes, reads, timeline, outcome and lists |
| Motor.MotorControl.RunWithVelocity | Model/MotorControl.cs:213-217 | a run of the velocities as drive units in speed-ramp mode, with the whole run's writes, reads, timeline, outcome and lists |
| Motor.MotorControl.RunTickSequence | Model/MotorControl.cs:221-329 | outcome, write trace, read trace, timeline and all eleven lists equal the run functions of the inputs, stopwatch and bus replies; a completed run's homing list is the search |
| Motor.MotorControl.PlayAndLog | Model/MotorControl.cs:269-328 | reset, logging set-up, targets and stop writes in that order; 2000 log reads; the timeline of these with the playback's stopwatch readings; the retrieved log and recorded lists |
| Motor.MotorControl.NewWords | Model/MotorControl.cs:247-249 | a fresh array of zeros |
| Motor.MotorControl.StoreRecorded | Model/MotorControl.cs:319-328 | the recorded lists become the converted motor arrays and the stopwatch times; nothing else changes |
| Motor.MotorControl.RetrieveLog | Model/MotorControl.cs:307-317 | reads the log once, appending its 2000 reads to the timeline, and stores the four converted channels |
| Motor.MotorControl.HomingStep | Model/MotorControl.cs:470-508 | one sensor read and then one target write, in that order on the timeline; the target is the next search target and `done` holds exactly in the home window |
| Motor.MotorControl.HomeSearch | Model/MotorControl.cs:467-509 | the loop's target list has the search shape; it writes exactly those targets and reads once per target, each read right before its target's write on the timeline |
| Motor.MotorControl.SearchPass | Model/MotorControl.cs:468-509 | one iteration of the search loop keeps the loop's invariants for the search extended by one target |
| Motor.MotorControl.SearchStep | Model/MotorControl.cs:471-508 | a step of a search extends its traces and timeline to those of the search with one more target |
| Motor.MotorControl.GoToHome | Model/MotorControl.cs:443-517 | out of range: fail after one read with no write; otherwise pass, with prologue, search targets and epilogue writes, and the homing's timeline |
| Motor.MotorControl.PrepareHoming | Model/MotorControl.cs:461-465 | appends motor off, speed 0, position 0, target 0 and position ramp, to the trace and the timeline |
| Motor.MotorControl.FinishHoming | Model/MotorControl.cs:512-516 | appends motor off, position 0 and target 0, to the trace and the timeline |
| Motor.MotorControl.CreateTimeVector | Model/MotorControl.cs:520-540 | for a valid length, appends the time axis and returns the register factor; otherwise index error and nothing appended |
| Motor.MotorControl.SetupLogging | Model/MotorControl.cs:545-569 | appends the channel selection, period and start writes, to the trace and the timeline |
| Motor.MotorControl.SaveLoggedValues | Model/MotorControl.cs:574-607 | each array holds its channel's 500 words; targets, and positions when `Position == 1`, are decoded to signed 16 bits; the 2000 reads are appended to the timeline |
| Motor.MotorControl.ReadLoggedSamples | Model/MotorControl.cs:579-593 | 2000 reads in sample order, on the trace and the timeline, each array receiving its channel |
| Motor.MotorControl.SamplePass | Model/MotorControl.cs:580-592 | one iteration of the retrieval loop keeps the loop's invariants for one more sample |
| Motor.MotorControl.ReadSample | Model/MotorControl.cs:582-590 | four reads, one per channel, on the trace and the timeline, returning the four replies |
| Motor.MotorControl.DecodeLoggedSamples | Model/MotorControl.cs:595-606 | targets are decoded, and positions are decoded exactly when `Position == 1` |
| Motor.MotorControl.PlayTargets | Model/MotorControl.cs:284-297 | writes every target in order; the releasing readings are the releases the stopwatch makes; the recorded array holds the readings after them; the timeline is the playback's block-by-block timeline, so each write follows a reading that has reached its time |
| Motor.MotorControl.PlayPass | Model/MotorControl.cs:286-296 | one pass of the playback loop reads the stopwatch once and keeps every invariant of the loop, releasing the next target exactly when the reading has reached its time |
| Motor.MotorControl.ReleasePass | Model/MotorControl.cs:288-295 | a pass whose reading has reached the next time releases that target and keeps the loop's invariants |
| Motor.MotorControl.ReleaseTarget | Model/MotorControl.cs:291-294 | target i is written, then the next stopwatch reading is recorded as its time, in that order on the timeline |
| Motor.MotorControl.ReadStopwatch | Model/MotorControl.cs:288-293 | a stopwatch reading returns the clock's reading at that index and notes it on the timeline |
| Flow.ToLinear | Model/ProfileConverter.cs:41-48 | one velocity per flow; each value is stated by ToLinearSnoc, and LinearVolumetricInverse relates it to ToVolumetric |
| Flow.ToVolumetric | Model/ProfileConverter.cs:51-58 | one volume per position; each value is stated by ToVolumetricSnoc |
| Flow.LinearVolumetricInverse | Model/ProfileConverter.cs:41-82 | `FlowToVelocity` and `VelocityToFlow`, and likewise position and volume, are inverse to each other |
| Flow.Integrated | Model/ProfileConverter.cs:88-104 | fails with a length mismatch exactly when the lists differ in length |
| Flow.IntegrateLosesLastSample | Model/ProfileConverter.cs:85-104 | one rectangle fewer than samples, and the last `y` sample does not matter |
| Flow.RunningSums | Model/ProfileConverter.cs:33-36 | same length; the first is the first step, and each next is the previous plus its step |
| Flow.Positions | Model/ProfileConverter.cs:28-38 | defined exactly for equal lists of at least two samples, giving one position fewer; otherwise a length or index error |
| Flow.FinalPosition | Model/ProfileConverter.cs:28-38 | the last position is the whole integrated volume over the section area |
| Flow.FlowToPositionNondecreasing | Model/ProfileConverter.cs:28-38 | nonnegative flows over nondecreasing times give nondecreasing positions |
| Flow.Flows | Model/ProfileConverter.cs:61-72 | an index error exactly when a time is missing for some position; otherwise one flow per neighbouring pair |
| Flow.DifferencesRecoverFlows | Model/ProfileConverter.cs:28-72 | positions from `FlowToPosition`, with 0 in front, difference back through `PositionToFlow` to every flow but the last |
| Profile.ProfileConverter.constructor | Model/ProfileConverter.cs:21-25 | a 34 mm syringe with section area 289 π mm², which is positive |
| Profile.ProfileConverter.FlowToPosition | Model/ProfileConverter.cs:28-38 | the loop computes `Flow.Positions` of the inputs |
| Profile.ProfileConverter.FlowToVelocity | Model/ProfileConverter.cs:41-48 | the loop computes `Flow.ToLinear` of the flows |
| Profile.ProfileConverter.PositionToVolume | Model/ProfileConverter.cs:51-58 | the loop computes `Flow.ToVolumetric` of the positions |
| Profile.ProfileConverter.PositionToFlow | Model/ProfileConverter.cs:61-72 | the loop computes `Flow.Flows`, including the index error for a missing time |
| Profile.ProfileConverter.VelocityToFlow | Model/ProfileConverter.cs:75-82 | the loop computes `Flow.ToVolumetric` of the velocities |
| Profile.ProfileConverter.Integrate | Model/ProfileConverter.cs:88-104 | the loop computes `Flow.Integrated`, including the length-mismatch error |

## Left out

**Arithmetic and number representation**

- `double` is modelled as exact `real`.
  - Rounding error is not modelled.
  - Division by zero (which gives infinity or NaN in C#) is not modelled.
  - `Math.PI` is the decimal 3.141592653589793.
- 32-bit `int` overflow is not modelled. This covers the homing target, the `(int)Math.Ceiling` of the log factor in `createTimeVector` (MotorControl.cs:527), `t * LogFactor` in the time axis, and the `(int)` casts in the tick conversions. Integers are unbounded.
  - The 16-bit casts that matter are written out: `(short)` for the log period and `(ushort)`/`ToInt16` for decoding.
- Profile.ProfileConverter.FlowToPosition: requires a nonzero `SectionArea`, because the C# division by a zero area gives infinity, which reals cannot represent. The constructor sets it positive.
- Profile.ProfileConverter.FlowToVelocity: requires a nonzero `SectionArea`, for the same reason.
- Profile.ProfileConverter.PositionToFlow: requires neighbouring times to differ within the positions' range, because the C# division by a zero time step gives infinity or NaN.
- Flow.Flows: requires the same distinct time steps, for the same reason.

**Non-termination**

- Motor.MotorControl.RunTickSequence: the ghost witnesses `homeAt` and `deadline` exclude a homing search that never reaches the window and a stopwatch that never passes the last time. On those inputs the C# loops spin forever.
- Motor.MotorControl.RunWithPosition and Motor.MotorControl.RunWithVelocity: the same witnesses.
- Motor.MotorControl.GoToHome: requires `homeAt`, for the same reason.
- Motor.MotorControl.HomeSearch: requires `homeAt`, for the same reason.
- Motor.MotorControl.PlayTargets: requires a monotone stopwatch that passes every time. It also requires a recording array of the schedule's length, which `RunTickSequence` always allocates.

**Log arrays**

- Motor.MotorControl.SaveLoggedValues: requires four distinct arrays of exactly 500 words. The C# callers allocate them so. Shorter arrays, which would throw, and aliased arrays are not modelled.
- Motor.MotorControl.ReadLoggedSamples: the same requirement.

**Side effects and arrays that are not modelled**

- Console output in `goToHome`, `createTimeVector` and `saveLoggedValues` is left out; it has no effect on state.
- `MotorRecordedPressures` and `MotorRecordedLinearPositions` are left out. They are allocated and never read or written after allocation.
- The motor-side recorded arrays are zeros, as in the code. They are never filled.

**Environment**

- The field bus is represented only by its traces and replies. Its connection handling and transport failures are not modelled; a failed write or read aborts nothing here. ModbusCommunication.cs is not part of this model.
- The stopwatch is the `clock` reply function. Real timing is not modelled.

**Members outside the core**

- `sequenceControl`, `testLinearSensor` and `ManualControl` in `MotorControl` are left out. They are not part of the modelled run.
- The `SyringeDiameter`/`SectionArea` property setters are plain assignable fields. As in the C#, setting the diameter does not recompute the area; no member models that.
- Program.cs, DataExporter.cs and ControlPageViewModel.cs are the application's callers and CSV export. They are not part of this model.
- Flow.CircleArea has no contract of its own. The area of the 34 mm syringe is stated on the converter's constructor.
