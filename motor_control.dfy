/** The controller object (`MotorControl`): the transport it drives, the eleven lists it
    exposes, and the operations that write and read device registers. Every method states the
    writes and reads it sends as an extension of the transport's traces, and its effect on the
    lists through the functions of the `Run`, `Homing`, `Logging` and `Playback` modules. */
module Motor {
  import opened Words
  import opened Hardware
  import opened Units
  import opened Transport
  import opened Outcomes
  import opened Interlock
  import opened Homing
  import opened Logging
  import opened Playback
  import opened Run
  import Register
  import Mode

  class MotorControl {
    const ModCom: Bus

    var RecordedTimes: seq<real>
    var RecordedPositions: seq<real>
    var RecordedVelocities: seq<real>
    var RecordedTorques: seq<real>
    var RecordedPressures: seq<real>
    var RecordedLinearPositions: seq<real>

    var LoggedPositions: seq<real>
    var LoggedTargets: seq<real>
    var LoggedPressures: seq<real>
    var LoggedLinearPositions: seq<real>
    var LoggedTime: seq<real>

    /** The eleven lists as one value. */
    function Lists(): Run.Lists
      reads this
    {
      Run.Lists(RecordedTimes, RecordedPositions, RecordedVelocities, RecordedTorques,
                RecordedPressures, RecordedLinearPositions, LoggedPositions, LoggedTargets,
                LoggedPressures, LoggedLinearPositions, LoggedTime)
    }

    /** Installs event rule `eventNr`: one write into each of the six event tables. */
    method CreateEvent(eventNr: UInt16, trgData: Int16, trgReg: Int16, eventLogic: UInt16,
                       dstRegister: Int16, srcData: UInt16, srcRegister: Int16)
      modifies ModCom
      ensures ModCom.writeLog == old(ModCom.writeLog) +
        EventWrites(eventNr, trgData, trgReg, eventLogic, dstRegister, srcData, srcRegister)
      ensures ModCom.readLog == old(ModCom.readLog)
      ensures ModCom.events == old(ModCom.events) +
        WriteEvents(EventWrites(eventNr, trgData, trgReg, eventLogic, dstRegister, srcData, srcRegister))
    {
      ModCom.RunModbus(Wrap16(Register.EventTrgData + eventNr), trgData, I16);
      ModCom.RunModbus(Wrap16(Register.EventTrgReg + eventNr), trgReg, I16);
      ModCom.RunModbus(Wrap16(Register.EventControl + eventNr), eventLogic, U16);
      ModCom.RunModbus(Wrap16(Register.EventDstReg + eventNr), dstRegister, I16);
      ModCom.RunModbus(Wrap16(Register.EventSrcData + eventNr), srcData, U16);
      ModCom.RunModbus(Wrap16(Register.EventSrcReg + eventNr), srcRegister, I16);
    }

    /** Empty lists, then the torque interlock is armed and the torque limit set. */
    constructor (modCom: Bus)
      modifies modCom
      ensures ModCom == modCom
      ensures Lists() == Run.Lists([], [], [], [], [], [], [], [], [], [], [])
      ensures modCom.writeLog == old(modCom.writeLog) + ArmWrites()
      ensures modCom.readLog == old(modCom.readLog)
      ensures modCom.events == old(modCom.events) + WriteEvents(ArmWrites())
    {
      ModCom := modCom;
      RecordedTimes := [];
      RecordedPositions := [];
      RecordedVelocities := [];
      RecordedTorques := [];
      RecordedPressures := [];
      RecordedLinearPositions := [];
      LoggedPositions := [];
      LoggedTargets := [];
      LoggedPressures := [];
      LoggedLinearPositions := [];
      LoggedTime := [];
      new;
      ArmInterlock();
    }

    /** Event rule 0 switches the drive off when the torque bit of the status word is set; the
        torque limit is then written. */
    method ArmInterlock()
      modifies ModCom
      ensures ModCom.writeLog == old(ModCom.writeLog) + ArmWrites()
      ensures ModCom.readLog == old(ModCom.readLog)
      ensures ModCom.events == old(ModCom.events) + WriteEvents(ArmWrites())
    {
      CreateEvent(0, TorqueBitmask, Register.Status as Int16, AndLogic, Register.Mode as Int16, 0, 0);
      ModCom.RunModbus(Register.MotorTorqueMax, MaxTorque, I16);
    }

    /** The drive is switched off, speed, position and target zeroed, `mode` selected and the
        device time reset. */
    method ResetDrive(mode: Int16)
      modifies ModCom
      ensures ModCom.writeLog == old(ModCom.writeLog) + ResetWrites(mode)
      ensures ModCom.readLog == old(ModCom.readLog)
      ensures ModCom.events == old(ModCom.events) + WriteEvents(ResetWrites(mode))
    {
      ModCom.RunModbus(Register.Mode, Mode.MotorOff, I16);
      ModCom.RunModbus(Register.Speed, 0, I32);
      ModCom.RunModbus(Register.Position, 0, I32);
      ModCom.RunModbus(Register.TargetInput, 0, I32);
      ModCom.RunModbus(Register.Mode, mode, I16);
      ModCom.RunModbus(Register.Time, 0, I32);
    }

    /** Logging is stopped, the target zeroed and the drive switched off. */
    method StopDrive()
      modifies ModCom
      ensures ModCom.writeLog == old(ModCom.writeLog) + TeardownWrites()
      ensures ModCom.readLog == old(ModCom.readLog)
      ensures ModCom.events == old(ModCom.events) + WriteEvents(TeardownWrites())
    {
      ModCom.RunModbus(Register.LogState, 0, I16);
      ModCom.RunModbus(Register.TargetInput, 0, I32);
      ModCom.RunModbus(Register.Mode, Mode.MotorOff, I16);
    }

    /** `RunWithPosition`: the positions (mm) converted to motor ticks and played in
        position-ramp mode. */
    method RunWithPosition(positions: seq<real>, times: seq<real>, clock: nat -> real,
                           ghost homeAt: nat, ghost deadline: nat) returns (outcome: Outcome, ghost targets: seq<int>)
      requires var r0 := |ModCom.readLog|; var ticks := PositionToTick(positions);
        && (RunOutcome(ticks, times, ModCom.reply(r0)) == Pass ==> HomingEnds(ModCom.reply, r0, homeAt))
        && Playable(ticks, times, ModCom.reply(r0), clock, deadline)
      modifies this, ModCom
      ensures var r0 := |old(ModCom.readLog)|;
        var first := ModCom.reply(r0);
        var ticks := PositionToTick(positions);
        && outcome == RunOutcome(ticks, times, first)
        && ModCom.writeLog == old(ModCom.writeLog) + RunWrites(ticks, times, Mode.PositionRamp, first, targets)
        && ModCom.readLog == old(ModCom.readLog) + RunReads(ticks, times, first, targets)
        && ModCom.events == old(ModCom.events) + RunEvents(ticks, times, Mode.PositionRamp, first, targets, clock, deadline)
        && Lists() == RunLists(old(Lists()), ticks, times, ModCom.reply, r0, targets, clock, deadline)
    {
      var ticks := PositionToTick(positions);
      outcome, targets := RunTickSequence(ticks, times, Mode.PositionRamp, clock, homeAt, deadline);
    }

    /** `RunWithVelocity`: the velocities (mm/s) converted to ticks per second and played in
        speed-ramp mode. */
    method RunWithVelocity(velocities: seq<real>, times: seq<real>, clock: nat -> real,
                           ghost homeAt: nat, ghost deadline: nat) returns (outcome: Outcome, ghost targets: seq<int>)
      requires var r0 := |ModCom.readLog|; var ticks := VelocityToTicksPerSecond(velocities);
        && (RunOutcome(ticks, times, ModCom.reply(r0)) == Pass ==> HomingEnds(ModCom.reply, r0, homeAt))
        && Playable(ticks, times, ModCom.reply(r0), clock, deadline)
      modifies this, ModCom
      ensures var r0 := |old(ModCom.readLog)|;
        var first := ModCom.reply(r0);
        var ticks := VelocityToTicksPerSecond(velocities);
        && outcome == RunOutcome(ticks, times, first)
        && ModCom.writeLog == old(ModCom.writeLog) + RunWrites(ticks, times, Mode.SpeedRamp, first, targets)
        && ModCom.readLog == old(ModCom.readLog) + RunReads(ticks, times, first, targets)
        && ModCom.events == old(ModCom.events) + RunEvents(ticks, times, Mode.SpeedRamp, first, targets, clock, deadline)
        && Lists() == RunLists(old(Lists()), ticks, times, ModCom.reply, r0, targets, clock, deadline)
    {
      var ticks := VelocityToTicksPerSecond(velocities);
      outcome, targets := RunTickSequence(ticks, times, Mode.SpeedRamp, clock, homeAt, deadline);
    }

    /** `RunTickSequence`: plays `ticks` at `times` in drive mode `mode`. Unequal lists throw
        before anything is written; otherwise the interlock is armed, the log's time axis built,
        the piston homed, and the targets played and logged. The run's outcome, writes, reads
        and lists are those of the `Run` module. `homeAt` and `deadline` witness that the homing
        search and the playback end. */
    method RunTickSequence(ticks: seq<int>, times: seq<real>, mode: Int16, clock: nat -> real,
                           ghost homeAt: nat, ghost deadline: nat) returns (outcome: Outcome, ghost targets: seq<int>)
      requires var r0 := |ModCom.readLog|;
        && (RunOutcome(ticks, times, ModCom.reply(r0)) == Pass ==> HomingEnds(ModCom.reply, r0, homeAt))
        && Playable(ticks, times, ModCom.reply(r0), clock, deadline)
      modifies this, ModCom
      ensures var r0 := |old(ModCom.readLog)|;
        var first := ModCom.reply(r0);
        && outcome == RunOutcome(ticks, times, first)
        && ModCom.writeLog == old(ModCom.writeLog) + RunWrites(ticks, times, mode, first, targets)
        && ModCom.readLog == old(ModCom.readLog) + RunReads(ticks, times, first, targets)
        && ModCom.events == old(ModCom.events) + RunEvents(ticks, times, mode, first, targets, clock, deadline)
        && Lists() == RunLists(old(Lists()), ticks, times, ModCom.reply, r0, targets, clock, deadline)
        && (outcome == Pass ==> IsSearch(ModCom.reply, r0 + 1, 0, targets))
    {
      ghost var r0 := |ModCom.readLog|;
      targets := [];
      if |ticks| != |times| {
        assert ModCom.events == old(ModCom.events) + [];
        return Fail(LengthMismatch), targets;
      }
      ArmInterlock();
      var sequenceLength := |ticks|;
      var timeVector := CreateTimeVector(times, sequenceLength);
      if timeVector.Err? {
        return Fail(timeVector.error), targets;
      }
      var homed;
      homed, targets := GoToHome(homeAt);
      if homed.Fail? {
        return homed, targets;
      }
      ghost var first := ModCom.reply(r0);
      assert RunOutcome(ticks, times, first) == Pass;
      ghost var homedLists := Lists();
      assert homedLists == old(Lists()).(loggedTime := old(LoggedTime) + TimeAxis(LogFactor(times[sequenceLength - 1])));
      ghost var base := |ModCom.readLog|;
      assert base == r0 + |targets| + 1;
      PlayAndLog(ticks, times, mode, timeVector.value, clock, deadline);
      assert Lists() == PlayedLists(homedLists, |ticks|, times, ModCom.reply, base, clock, deadline);
      RunWritesAppend(old(ModCom.writeLog), ticks, times, mode, first, targets);
      RunReadsAppend(old(ModCom.readLog), ticks, times, first, targets);
      RunEventsAppend(old(ModCom.events), ticks, times, mode, first, targets, clock, deadline);
      CompletedRunLists(old(Lists()), homedLists, ticks, times, ModCom.reply, r0, targets, base, clock, deadline);
      return Pass, targets;
    }

    /** The part of `RunTickSequence` after homing: the drive is reset to `mode` with device
        time 0, the log started for velocity control, the targets played, the drive stopped,
        the log read back with position decoding, and the lists converted from the arrays. The
        motor-side arrays are allocated zeroed and never filled. */
    method PlayAndLog(ticks: seq<int>, times: seq<real>, mode: Int16, regLogFactor: int,
                      clock: nat -> real, ghost deadline: nat)
      requires |ticks| == |times|
      requires Monotone(clock) && Covers(times, clock, deadline)
      modifies this, ModCom
      ensures ModCom.writeLog == old(ModCom.writeLog) + ResetWrites(mode) + LoggingWrites(regLogFactor, 0)
        + TargetWrites(ticks) + TeardownWrites()
      ensures ModCom.readLog == old(ModCom.readLog) + LogReads(LogLength)
      ensures ModCom.events == old(ModCom.events) + WriteEvents(ResetWrites(mode))
        + WriteEvents(LoggingWrites(regLogFactor, 0)) + PlayEvents(ticks, clock, Releases(times, clock, 0, deadline), |ticks|)
        + WriteEvents(TeardownWrites()) + ReadEvents(LogReads(LogLength))
      ensures Lists() == PlayedLists(old(Lists()), |ticks|, times, ModCom.reply, |old(ModCom.readLog)|, clock, deadline)
    {
      var sequenceLength := |ticks|;
      var stopwatchRecordedTimes := new real[sequenceLength];
      ResetDrive(mode);
      SetupLogging(regLogFactor, 0);
      ghost var rel := PlayTargets(ticks, times, clock, deadline, stopwatchRecordedTimes);
      StopDrive();
      RecordedAreStamps(times, clock, deadline, rel);
      ghost var base := |ModCom.readLog|;
      RetrieveLog();
      ghost var retrieved := Lists();
      // The three motor-side arrays are never filled.
      var motorRecordedPositions := NewWords(sequenceLength);
      var motorRecordedVelocities := NewWords(sequenceLength);
      var motorRecordedTorques := NewWords(sequenceLength);
      label stored:
      StoreRecorded(motorRecordedPositions[..], motorRecordedVelocities[..], motorRecordedTorques[..],
                    stopwatchRecordedTimes[..]);
      PlayedListsStored(old(Lists()), retrieved, sequenceLength, times, ModCom.reply, base, clock, deadline,
        old@stored(motorRecordedPositions[..]), old@stored(motorRecordedVelocities[..]),
        old@stored(motorRecordedTorques[..]), old@stored(stopwatchRecordedTimes[..]));
    }

    /** A fresh `Int32[n]`, zero-filled as the runtime allocates it. */
    static method NewWords(n: nat) returns (a: array<int>)
      ensures fresh(a) && a[..] == Zeros(n)
    {
      a := new int[n](i => 0);
      assert a[..] == Zeros(n);
    }

    /** The recorded lists are set from the contents of the motor-side arrays, in physical
        units, and from the stopwatch readings. */
    method StoreRecorded(positions: seq<int>, velocities: seq<int>, torques: seq<int>, stamps: seq<real>)
      modifies this
      ensures Lists() == old(Lists()).(
        recordedPositions := TickToPosition(positions),
        recordedVelocities := TicksPerSecondToVelocity(velocities),
        recordedTorques := MotorTorquesToTorques(torques),
        recordedTimes := stamps)
    {
      RecordedPositions := TickToPosition(positions);
      RecordedVelocities := TicksPerSecondToVelocity(velocities);
      RecordedTorques := MotorTorquesToTorques(torques);
      RecordedTimes := stamps;
    }

    /** The log retrieval of `RunTickSequence`: four 500-word arrays are filled by
        `saveLoggedValues` with position decoding, and the four logged lists set from them in
        physical units. */
    method RetrieveLog()
      modifies this, ModCom
      ensures ModCom.readLog == old(ModCom.readLog) + LogReads(LogLength)
      ensures ModCom.writeLog == old(ModCom.writeLog)
      ensures ModCom.events == old(ModCom.events) + ReadEvents(LogReads(LogLength))
      ensures Lists() == RetrievedLists(old(Lists()), ModCom.reply, |old(ModCom.readLog)|)
    {
      var logRecordedPositions := new int[500];
      var logRecordedTargets := new int[500];
      var logRecordedPressures := new int[500];
      var logRecordedLinearPositions := new int[500];
      SaveLoggedValues(logRecordedPositions, logRecordedTargets, logRecordedPressures, logRecordedLinearPositions, 1);
      LoggedPositions := TickToPosition(logRecordedPositions[..]);
      LoggedTargets := TicksPerSecondToVelocity(logRecordedTargets[..]);
      LoggedPressures := Uns16ToVdc(logRecordedPressures[..]);
      LoggedLinearPositions := Uns16ToLinPos(logRecordedLinearPositions[..]);
    }

    /** One iteration of the `goToHome` search: reads the linear position sensor, moves the
        target `target` one step towards home (20 counts when more than 0.5 mm away, else 1),
        writes it, and reports whether the reading lies inside the home window. */
    method HomingStep(target: int) returns (next: int, done: bool)
      modifies ModCom
      ensures var pos := SensorToMm(ModCom.reply(|old(ModCom.readLog)|));
        next == NextTarget(pos, target) && (done <==> Reached(pos))
      ensures ModCom.readLog == old(ModCom.readLog) + SensorReads(1)
      ensures ModCom.writeLog == old(ModCom.writeLog) + [RegWrite(Register.TargetInput, next, I32)]
      ensures ModCom.events == old(ModCom.events) + [Fetched(SensorRead()), Wrote(RegWrite(Register.TargetInput, next, I32))]
    {
      var raw := ModCom.ReadModbus(Register.LinearPosition, 1, false);
      var currentPosition := SensorToMm(raw);
      var increase := 0;
      if Abs(currentPosition - HomePosition) > 0.5 {
        increase := 20;
      } else {
        increase := 1;
      }
      next := target;
      if currentPosition > HomePosition + HomePosTolerance {
        next := next + increase;
      } else if currentPosition < HomePosition - HomePosTolerance {
        next := next - increase;
      }
      done := false;
      if currentPosition < HomePosition + HomePosTolerance && currentPosition > HomePosition - HomePosTolerance {
        done := true;
      }
      ModCom.RunModbus(Register.TargetInput, next, I32);
    }

    /** The search loop of `goToHome`: from target 0, one `HomingStep` per iteration until a
        reading lies inside the home window. `homeAt`, a read at or after the first one whose
        reading lies inside the window, witnesses that the loop ends. */
    method HomeSearch(ghost homeAt: nat) returns (ghost targets: seq<int>)
      requires |ModCom.readLog| <= homeAt && Reached(SensorToMm(ModCom.reply(homeAt)))
      modifies ModCom
      ensures IsSearch(ModCom.reply, |old(ModCom.readLog)|, 0, targets)
      ensures ModCom.writeLog == old(ModCom.writeLog) + Writes(Register.TargetInput, targets, I32)
      ensures ModCom.readLog == old(ModCom.readLog) + SensorReads(|targets|)
      ensures ModCom.events == old(ModCom.events) + SearchEvents(targets)
    {
      ghost var k0 := |ModCom.readLog|;
      ghost var reply := ModCom.reply;
      targets := [];
      assert old(ModCom.events) + SearchEvents([]) == old(ModCom.events);
      var done := false;
      var newPosition := 0;
      while !done
        invariant !done ==> k0 + |targets| <= homeAt && Unreached(reply, k0, |targets|)
        invariant done ==> IsSearch(reply, k0, 0, targets)
        invariant Stepped(reply, k0, 0, targets)
        invariant newPosition == Last(targets, 0)
        invariant ModCom.writeLog == old(ModCom.writeLog) + Writes(Register.TargetInput, targets, I32)
        invariant ModCom.readLog == old(ModCom.readLog) + SensorReads(|targets|)
        invariant ModCom.events == old(ModCom.events) + SearchEvents(targets)
        decreases if done then 0 else homeAt + 1 - k0 - |targets|
      {
        newPosition, done, targets :=
          SearchPass(homeAt, k0, newPosition, targets, old(ModCom.writeLog), old(ModCom.readLog), old(ModCom.events));
      }
    }

    /** One iteration of the search loop of `goToHome`, after the targets `targets` and before
        the home window is reached: the loop's invariants hold again for the extended search. */
    method SearchPass(ghost homeAt: nat, ghost k0: nat, target: int, ghost targets: seq<int>,
                      ghost w0: seq<RegWrite>, ghost r0: seq<RegRead>, ghost e0: seq<Event>)
      returns (next: int, done: bool, ghost targets': seq<int>)
      requires |r0| == k0 && k0 + |targets| <= homeAt && Reached(SensorToMm(ModCom.reply(homeAt)))
      requires Unreached(ModCom.reply, k0, |targets|) && Stepped(ModCom.reply, k0, 0, targets)
      requires target == Last(targets, 0)
      requires ModCom.writeLog == w0 + Writes(Register.TargetInput, targets, I32)
      requires ModCom.readLog == r0 + SensorReads(|targets|)
      requires ModCom.events == e0 + SearchEvents(targets)
      modifies ModCom
      ensures targets' == targets + [next]
      ensures !done ==> k0 + |targets'| <= homeAt && Unreached(ModCom.reply, k0, |targets'|)
      ensures done ==> IsSearch(ModCom.reply, k0, 0, targets')
      ensures Stepped(ModCom.reply, k0, 0, targets') && next == Last(targets', 0)
      ensures ModCom.writeLog == w0 + Writes(Register.TargetInput, targets', I32)
      ensures ModCom.readLog == r0 + SensorReads(|targets'|)
      ensures ModCom.events == e0 + SearchEvents(targets')
    {
      next, done := SearchStep(target, targets, w0, r0, e0);
      SteppedExtend(ModCom.reply, k0, 0, targets);
      if !done {
        UnreachedSnoc(ModCom.reply, k0, |targets|);
      }
      targets' := targets + [next];
    }

    /** A `HomingStep` of a search that has written `targets` so far: the traces and the
        timeline become those of the search extended by the new target. */
    method SearchStep(target: int, ghost targets: seq<int>, ghost w0: seq<RegWrite>, ghost r0: seq<RegRead>,
                      ghost e0: seq<Event>) returns (next: int, done: bool)
      requires ModCom.writeLog == w0 + Writes(Register.TargetInput, targets, I32)
      requires ModCom.readLog == r0 + SensorReads(|targets|)
      requires ModCom.events == e0 + SearchEvents(targets)
      modifies ModCom
      ensures var pos := SensorToMm(ModCom.reply(|old(ModCom.readLog)|));
        next == NextTarget(pos, target) && (done <==> Reached(pos))
      ensures ModCom.writeLog == w0 + Writes(Register.TargetInput, targets + [next], I32)
      ensures ModCom.readLog == r0 + SensorReads(|targets + [next]|)
      ensures ModCom.events == e0 + SearchEvents(targets + [next])
    {
      next, done := HomingStep(target);
      WritesSnoc(Register.TargetInput, targets, next, I32);
      SearchEventsExtend(e0, targets, next);
      SensorReadsAppend(|targets|, 1);
      AppendAssoc(r0, SensorReads(|targets|), SensorReads(1));
      AppendAssoc(w0, Writes(Register.TargetInput, targets, I32), [RegWrite(Register.TargetInput, next, I32)]);
    }

    /** `goToHome`. The first sensor reading must lie in the travel range, otherwise nothing is
        written; then the drive is reset to position ramp mode and the search writes one target
        per reading until a reading lies inside the home window; then the drive is stopped and
        the home position becomes position 0. `targets` names the targets the search wrote;
        `homeAt` witnesses that the search ends. */
    method GoToHome(ghost homeAt: nat) returns (outcome: Outcome, ghost targets: seq<int>)
      requires InTravel(SensorToMm(ModCom.reply(|ModCom.readLog|))) ==>
        HomingEnds(ModCom.reply, |ModCom.readLog|, homeAt)
      modifies ModCom
      ensures var r0 := |old(ModCom.readLog)|;
        if InTravel(SensorToMm(ModCom.reply(r0))) then
          && outcome == Pass
          && IsSearch(ModCom.reply, r0 + 1, 0, targets)
          && ModCom.writeLog == old(ModCom.writeLog) + HomingWrites(targets)
          && ModCom.readLog == old(ModCom.readLog) + SensorReads(|targets| + 1)
          && ModCom.events == old(ModCom.events) + HomingEvents(targets)
        else
          && outcome == Fail(SensorOutOfRange)
          && targets == []
          && ModCom.writeLog == old(ModCom.writeLog)
          && ModCom.readLog == old(ModCom.readLog) + SensorReads(1)
          && ModCom.events == old(ModCom.events) + [Fetched(SensorRead())]
    {
      ghost var r0 := |ModCom.readLog|;
      targets := [];
      var raw := ModCom.ReadModbus(Register.LinearPosition, 1, false);
      var currentPosition := SensorToMm(raw);
      if currentPosition > MaxPosition || currentPosition < MinPosition {
        return Fail(SensorOutOfRange), targets;
      }
      PrepareHoming();
      targets := HomeSearch(homeAt);
      FinishHoming();
      HomingEventsAppend(old(ModCom.events), targets);
      HomingWritesAppend(old(ModCom.writeLog), targets);
      SensorReadsAppend(1, |targets|);
      return Pass, targets;
    }

    /** The writes of `goToHome` before its search: drive off, speed, position and target
        zeroed, position ramp mode. */
    method PrepareHoming()
      modifies ModCom
      ensures ModCom.writeLog == old(ModCom.writeLog) + HomingPrologue()
      ensures ModCom.readLog == old(ModCom.readLog)
      ensures ModCom.events == old(ModCom.events) + WriteEvents(HomingPrologue())
    {
      ModCom.RunModbus(Register.Mode, Mode.MotorOff, I16);
      ModCom.RunModbus(Register.Speed, 0, I32);
      ModCom.RunModbus(Register.Position, 0, I32);
      ModCom.RunModbus(Register.TargetInput, 0, I32);
      ModCom.RunModbus(Register.Mode, Mode.PositionRamp, I16);
    }

    /** The writes of `goToHome` after its search: drive off, then the home position becomes
        position 0 and target 0. */
    method FinishHoming()
      modifies ModCom
      ensures ModCom.writeLog == old(ModCom.writeLog) + HomingEpilogue()
      ensures ModCom.readLog == old(ModCom.readLog)
      ensures ModCom.events == old(ModCom.events) + WriteEvents(HomingEpilogue())
    {
      ModCom.RunModbus(Register.Mode, Mode.MotorOff, I16);
      ModCom.RunModbus(Register.Position, 0, I32);
      ModCom.RunModbus(Register.TargetInput, 0, I32);
    }

    /** `createTimeVector`: appends the 500-sample time axis of a run that ends at
        `times[sequenceLength - 1]` to `LoggedTime` and returns the LogPeriod register value;
        an index outside `times` throws before anything is appended. */
    method CreateTimeVector(times: seq<real>, sequenceLength: int) returns (r: Result<int>)
      modifies this`LoggedTime
      ensures if 1 <= sequenceLength <= |times| then
          var maxTime := times[sequenceLength - 1];
          r == Ok(RegLogFactor(maxTime)) && LoggedTime == old(LoggedTime) + TimeAxis(LogFactor(maxTime))
        else
          r == Err(IndexOutOfRange) && LoggedTime == old(LoggedTime)
    {
      if !(1 <= sequenceLength <= |times|) {
        return Err(IndexOutOfRange);
      }
      var maxTime := times[sequenceLength - 1];
      var logFactor := Ceiling(maxTime * (TimePerSecond / 500.0));
      var regLogFactor := logFactor - 1;
      var t := 0;
      while t < 500
        invariant 0 <= t <= 500
        invariant LoggedTime == old(LoggedTime) + TimeAxis(logFactor)[..t]
      {
        var time := (t * logFactor) as real / TimePerSecond;
        LoggedTime := LoggedTime + [time];
        t := t + 1;
      }
      return Ok(regLogFactor);
    }

    /** `setupLogging`: selects the four logged registers, sets the period and starts the log. */
    method SetupLogging(regLogFactor: int, position: int)
      modifies ModCom
      ensures ModCom.writeLog == old(ModCom.writeLog) + LoggingWrites(regLogFactor, position)
      ensures ModCom.readLog == old(ModCom.readLog)
      ensures ModCom.events == old(ModCom.events) + WriteEvents(LoggingWrites(regLogFactor, position))
    {
      if position == 1 {
        ModCom.RunModbus(Register.LogRegister1, Wrap16(Register.Position + 1), U16);
        ModCom.RunModbus(Register.LogRegister2, Wrap16(Register.TargetInput + 1), U16);
        ModCom.RunModbus(Register.LogRegister3, Register.Pressure, U16);
        ModCom.RunModbus(Register.LogRegister4, Register.LinearPosition, U16);
      } else {
        ModCom.RunModbus(Register.LogRegister1, Register.Speed, U16);
        ModCom.RunModbus(Register.LogRegister2, Wrap16(Register.TargetInput + 1), U16);
        ModCom.RunModbus(Register.LogRegister3, Register.Pressure, U16);
        ModCom.RunModbus(Register.LogRegister4, Register.LinearPosition, U16);
      }
      ModCom.RunModbus(Register.LogPeriod, AsInt16(regLogFactor), I16);
      ModCom.RunModbus(Register.LogState, 2, I16);
    }

    /** `saveLoggedValues`: reads the 500 samples of the four channels, sample by sample, into
        the four arrays, then decodes channel 2, and channel 1 when `position` is 1, from the
        low 16 bits as signed words. */
    method SaveLoggedValues(positions: array<int>, targets: array<int>, pressures: array<int>,
                            linearPositions: array<int>, position: int)
      requires positions.Length == targets.Length == pressures.Length == linearPositions.Length == LogLength
      requires positions != targets && positions != pressures && positions != linearPositions
      requires targets != pressures && targets != linearPositions && pressures != linearPositions
      modifies ModCom, positions, targets, pressures, linearPositions
      ensures ModCom.readLog == old(ModCom.readLog) + LogReads(LogLength)
      ensures ModCom.writeLog == old(ModCom.writeLog)
      ensures ModCom.events == old(ModCom.events) + ReadEvents(LogReads(LogLength))
      ensures var base := |old(ModCom.readLog)|;
        && positions[..] ==
             (if position == 1 then Decoded(LogChannel(ModCom.reply, base, 0)) else LogChannel(ModCom.reply, base, 0))
        && targets[..] == Decoded(LogChannel(ModCom.reply, base, 1))
        && pressures[..] == LogChannel(ModCom.reply, base, 2)
        && linearPositions[..] == LogChannel(ModCom.reply, base, 3)
    {
      ReadLoggedSamples(positions, targets, pressures, linearPositions);
      DecodeLoggedSamples(positions, targets, position);
    }

    /** The retrieval loop of `saveLoggedValues`: sample j of channel c + 1 is read from
        register LogRegisterValue(c + 1) + j into the c-th array. */
    method ReadLoggedSamples(positions: array<int>, targets: array<int>, pressures: array<int>,
                             linearPositions: array<int>)
      requires positions.Length == targets.Length == pressures.Length == linearPositions.Length == LogLength
      requires positions != targets && positions != pressures && positions != linearPositions
      requires targets != pressures && targets != linearPositions && pressures != linearPositions
      modifies ModCom, positions, targets, pressures, linearPositions
      ensures ModCom.readLog == old(ModCom.readLog) + LogReads(LogLength)
      ensures ModCom.writeLog == old(ModCom.writeLog)
      ensures ModCom.events == old(ModCom.events) + ReadEvents(LogReads(LogLength))
      ensures var base := |old(ModCom.readLog)|;
        && positions[..] == LogChannel(ModCom.reply, base, 0)
        && targets[..] == LogChannel(ModCom.reply, base, 1)
        && pressures[..] == LogChannel(ModCom.reply, base, 2)
        && linearPositions[..] == LogChannel(ModCom.reply, base, 3)
    {
      ghost var base := |ModCom.readLog|;
      ghost var reply := ModCom.reply;
      var j := 0;
      while j < 500
        invariant 0 <= j <= 500
        invariant ModCom.readLog == old(ModCom.readLog) + LogReads(j)
        invariant ModCom.writeLog == old(ModCom.writeLog)
        invariant ModCom.events == old(ModCom.events) + ReadEvents(LogReads(j))
        invariant forall k :: 0 <= k < j ==>
          && positions[k] == ModCom.reply(base + 4 * k + 0) && targets[k] == ModCom.reply(base + 4 * k + 1)
          && pressures[k] == ModCom.reply(base + 4 * k + 2) && linearPositions[k] == ModCom.reply(base + 4 * k + 3)
      {
        SamplePass(positions, targets, pressures, linearPositions, j, base, old(ModCom.readLog), old(ModCom.events));
        j := j + 1;
      }
      ChannelOfReads(positions[..], reply, base, 0);
      ChannelOfReads(targets[..], reply, base, 1);
      ChannelOfReads(pressures[..], reply, base, 2);
      ChannelOfReads(linearPositions[..], reply, base, 3);
    }

    /** One pass of the retrieval loop of `saveLoggedValues` after `j` samples: sample `j` is
        read and stored, and the loop's invariants hold for `j + 1` samples. */
    method SamplePass(positions: array<int>, targets: array<int>, pressures: array<int>,
                      linearPositions: array<int>, j: nat, ghost base: nat, ghost r0: seq<RegRead>, ghost e0: seq<Event>)
      requires positions.Length == targets.Length == pressures.Length == linearPositions.Length == LogLength
      requires positions != targets && positions != pressures && positions != linearPositions
      requires targets != pressures && targets != linearPositions && pressures != linearPositions
      requires j < LogLength && |r0| == base
      requires ModCom.readLog == r0 + LogReads(j)
      requires ModCom.events == e0 + ReadEvents(LogReads(j))
      requires forall k :: 0 <= k < j ==>
        && positions[k] == ModCom.reply(base + 4 * k + 0) && targets[k] == ModCom.reply(base + 4 * k + 1)
        && pressures[k] == ModCom.reply(base + 4 * k + 2) && linearPositions[k] == ModCom.reply(base + 4 * k + 3)
      modifies ModCom, positions, targets, pressures, linearPositions
      ensures ModCom.readLog == r0 + LogReads(j + 1)
      ensures ModCom.writeLog == old(ModCom.writeLog)
      ensures ModCom.events == e0 + ReadEvents(LogReads(j + 1))
      ensures forall k :: 0 <= k < j + 1 ==>
        && positions[k] == ModCom.reply(base + 4 * k + 0) && targets[k] == ModCom.reply(base + 4 * k + 1)
        && pressures[k] == ModCom.reply(base + 4 * k + 2) && linearPositions[k] == ModCom.reply(base + 4 * k + 3)
    {
      var w1, w2, w3, w4 := ReadSample(j);
      LogReadsStep(r0, j);
      LogEventsStep(e0, j);
      positions[j], targets[j], pressures[j], linearPositions[j] := w1, w2, w3, w4;
    }

    /** One pass of the retrieval loop of `saveLoggedValues`: sample `j` of the four channels,
        read from registers LogRegisterValue1 + j to LogRegisterValue4 + j (cast to `ushort`). */
    method ReadSample(j: int) returns (w1: int, w2: int, w3: int, w4: int)
      modifies ModCom
      ensures ModCom.readLog == old(ModCom.readLog) + SampleReads(j)
      ensures ModCom.writeLog == old(ModCom.writeLog)
      ensures ModCom.events == old(ModCom.events) + ReadEvents(SampleReads(j))
      ensures var k := |old(ModCom.readLog)|;
        w1 == ModCom.reply(k) && w2 == ModCom.reply(k + 1) && w3 == ModCom.reply(k + 2) && w4 == ModCom.reply(k + 3)
    {
      var reg1 := Wrap16(Register.LogRegisterValue1 + j);
      var reg2 := Wrap16(Register.LogRegisterValue2 + j);
      var reg3 := Wrap16(Register.LogRegisterValue3 + j);
      var reg4 := Wrap16(Register.LogRegisterValue4 + j);
      w1 := ModCom.ReadModbus(reg1, 1, false);
      w2 := ModCom.ReadModbus(reg2, 1, false);
      w3 := ModCom.ReadModbus(reg3, 1, false);
      w4 := ModCom.ReadModbus(reg4, 1, false);
      SampleReadsInOrder(old(ModCom.readLog), j);
    }

    /** The conversion loop of `saveLoggedValues`: the low 16 bits of every target word, and of
        every position word when `position` is 1, are reinterpreted as a signed word. */
    method DecodeLoggedSamples(positions: array<int>, targets: array<int>, position: int)
      requires positions.Length == targets.Length == LogLength && positions != targets
      modifies positions, targets
      ensures positions[..] == if position == 1 then Decoded(old(positions[..])) else old(positions[..])
      ensures targets[..] == Decoded(old(targets[..]))
    {
      var o := 0;
      while o < 500
        invariant 0 <= o <= 500
        invariant forall k :: 0 <= k < LogLength ==>
          positions[k] == if k < o && position == 1 then AsInt16(old(positions[k])) as int else old(positions[k])
        invariant forall k :: 0 <= k < LogLength ==>
          targets[k] == if k < o then AsInt16(old(targets[k])) as int else old(targets[k])
      {
        if position == 1 {
          positions[o] := AsInt16(positions[o]);
        }
        targets[o] := AsInt16(targets[o]);
        o := o + 1;
      }
    }

    /** The playback loop: each pass reads the stopwatch, and once it has reached the next
        scheduled time writes that target and records a second reading. The writes are the
        targets in order; `rel` names the readings that released them, and each recorded time
        is the reading right after. */
    method PlayTargets(ticks: seq<int>, times: seq<real>, clock: nat -> real, ghost deadline: nat,
                       recorded: array<real>) returns (ghost rel: seq<nat>)
      requires |ticks| == |times| == recorded.Length
      requires Monotone(clock) && Covers(times, clock, deadline)
      modifies ModCom, recorded
      ensures ModCom.writeLog == old(ModCom.writeLog) + TargetWrites(ticks)
      ensures ModCom.readLog == old(ModCom.readLog)
      ensures |rel| == |times| && Released(times, clock, rel)
      ensures rel == Releases(times, clock, 0, deadline)
      ensures recorded[..] == Stamps(clock, rel)
      ensures ModCom.events == old(ModCom.events) + PlayEvents(ticks, clock, rel, |rel|)
    {
      rel := [];
      ghost var stamps: seq<real> := [];
      ghost var whole := old(ModCom.events) + PlayTrace(ticks, times, clock, deadline, 0, 0);
      var c: nat := 0;
      var i := 0;
      while i < |times|
        invariant 0 <= i <= |times| && |rel| == i && c <= deadline + 2 * i
        invariant Released(times, clock, rel) && Start(rel) <= c
        invariant i < |times| ==> Waited(times[i], clock, Start(rel), c)
        invariant stamps == Stamps(clock, rel)
        invariant forall j {:trigger recorded[j]} :: 0 <= j < i ==> recorded[j] == stamps[j]
        invariant ModCom.writeLog == old(ModCom.writeLog) + TargetWrites(ticks[..i])
        invariant ModCom.readLog == old(ModCom.readLog)
        invariant ModCom.events + PlayTrace(ticks, times, clock, deadline, i, c) == whole
        decreases deadline + 2 * |times| - c
      {
        i, c, rel, stamps := PlayPass(ticks, times, clock, deadline, recorded, i, c, rel, stamps, old(ModCom.writeLog), whole);
      }
      assert ticks[..i] == ticks;
      PlaybackFinished(ticks, times, clock, deadline, rel, c, ModCom.events, old(ModCom.events));
    }

    /** One pass of the playback loop from state (i, c): the stopwatch's `c`-th reading is
        taken; if it has reached times[i] write i is released (state (i + 1, c + 2)), otherwise
        the loop waits on (state (i, c + 1)). Every invariant of the loop is kept. */
    method PlayPass(ticks: seq<int>, times: seq<real>, clock: nat -> real, ghost deadline: nat,
                    recorded: array<real>, i: nat, c: nat, ghost rel: seq<nat>, ghost stamps: seq<real>,
                    ghost written: seq<RegWrite>, ghost whole: seq<Event>)
      returns (i': nat, c': nat, ghost rel': seq<nat>, ghost stamps': seq<real>)
      requires Monotone(clock) && Covers(times, clock, deadline) && |ticks| == |times| == recorded.Length
      requires i < |times| && |rel| == i && c <= deadline + 2 * i
      requires Released(times, clock, rel) && Start(rel) <= c && Waited(times[i], clock, Start(rel), c)
      requires stamps == Stamps(clock, rel)
      requires forall j {:trigger recorded[j]} :: 0 <= j < i ==> recorded[j] == stamps[j]
      requires ModCom.writeLog == written + TargetWrites(ticks[..i])
      requires ModCom.events + PlayTrace(ticks, times, clock, deadline, i, c) == whole
      modifies ModCom, recorded
      ensures c < c' && i' <= |times| && |rel'| == i' && c' <= deadline + 2 * i'
      ensures Released(times, clock, rel') && Start(rel') <= c'
      ensures i' < |times| ==> Waited(times[i'], clock, Start(rel'), c')
      ensures stamps' == Stamps(clock, rel')
      ensures forall j {:trigger recorded[j]} :: 0 <= j < i' ==> recorded[j] == stamps'[j]
      ensures ModCom.writeLog == written + TargetWrites(ticks[..i'])
      ensures ModCom.readLog == old(ModCom.readLog)
      ensures ModCom.events + PlayTrace(ticks, times, clock, deadline, i', c') == whole
    {
      ghost var timeline := ModCom.events;
      var elapsed := ReadStopwatch(clock, c);
      if times[i] <= elapsed {
        i', c', rel', stamps' := ReleasePass(ticks, times, clock, deadline, recorded, i, c, rel, stamps, written, timeline, whole);
      } else {
        WaitPass(ticks, times, clock, deadline, i, c, Start(rel), timeline, whole);
        i', c', rel', stamps' := i, c + 1, rel, stamps;
      }
    }

    /** The pass of the playback loop whose reading, the stopwatch's `c`-th (already taken and
        noted on `timeline`), has reached times[i]: write i is released there, and the loop goes
        on from state (i + 1, c + 2) with every invariant kept. */
    method ReleasePass(ticks: seq<int>, times: seq<real>, clock: nat -> real, ghost deadline: nat,
                       recorded: array<real>, i: nat, c: nat, ghost rel: seq<nat>, ghost stamps: seq<real>,
                       ghost written: seq<RegWrite>, ghost timeline: seq<Event>, ghost whole: seq<Event>)
      returns (i': nat, c': nat, ghost rel': seq<nat>, ghost stamps': seq<real>)
      requires Monotone(clock) && Covers(times, clock, deadline) && |ticks| == |times| == recorded.Length
      requires i < |times| && |rel| == i && c <= deadline + 2 * i
      requires Released(times, clock, rel) && Start(rel) <= c && Waited(times[i], clock, Start(rel), c)
      requires times[i] <= clock(c) && stamps == Stamps(clock, rel)
      requires forall j {:trigger recorded[j]} :: 0 <= j < i ==> recorded[j] == stamps[j]
      requires ModCom.writeLog == written + TargetWrites(ticks[..i])
      requires ModCom.events == timeline + [Elapsed(clock(c))]
      requires timeline + PlayTrace(ticks, times, clock, deadline, i, c) == whole
      modifies ModCom, recorded
      ensures i' == i + 1 && c' == c + 2 && rel' == rel + [c]
      ensures c < c' && i' <= |times| && |rel'| == i' && c' <= deadline + 2 * i'
      ensures Released(times, clock, rel') && Start(rel') <= c'
      ensures i' < |times| ==> Waited(times[i'], clock, Start(rel'), c')
      ensures stamps' == Stamps(clock, rel')
      ensures forall j {:trigger recorded[j]} :: 0 <= j < i' ==> recorded[j] == stamps'[j]
      ensures ModCom.writeLog == written + TargetWrites(ticks[..i'])
      ensures ModCom.readLog == old(ModCom.readLog)
      ensures ModCom.events + PlayTrace(ticks, times, clock, deadline, i', c') == whole
    {
      ReleasedSnoc(times, clock, rel, c);
      StampsSnoc(clock, rel, c);
      PlayTraceRelease(ticks, times, clock, deadline, i, c, timeline, whole);
      ReleaseTarget(ticks, clock, recorded, i, c, stamps, written);
      i', c', rel', stamps' := i + 1, c + 2, rel + [c], stamps + [clock(c + 1)];
    }

    /** Target i is written, and the stopwatch's `c + 1`-th reading is taken and recorded as
        its time. */
    method ReleaseTarget(ticks: seq<int>, clock: nat -> real, recorded: array<real>, i: nat, c: nat,
                         ghost stamps: seq<real>, ghost written: seq<RegWrite>)
      requires i < |ticks| && i < recorded.Length && |stamps| == i
      requires forall j {:trigger recorded[j]} :: 0 <= j < i ==> recorded[j] == stamps[j]
      requires ModCom.writeLog == written + TargetWrites(ticks[..i])
      modifies ModCom, recorded
      ensures forall j {:trigger recorded[j]} :: 0 <= j < i + 1 ==> recorded[j] == (stamps + [clock(c + 1)])[j]
      ensures ModCom.writeLog == written + TargetWrites(ticks[..i + 1])
      ensures ModCom.readLog == old(ModCom.readLog)
      ensures ModCom.events == old(ModCom.events) + [Wrote(RegWrite(Register.TargetInput, ticks[i], I32)), Elapsed(clock(c + 1))]
    {
      ModCom.RunModbus(Register.TargetInput, ticks[i], I32);
      var stamp := ReadStopwatch(clock, c + 1);
      recorded[i] := stamp;
      TargetWritesSnoc(written, ticks, i);
    }

    /** A reading of the run's stopwatch: the `c`-th reading of `clock`, noted on the timeline. */
    method ReadStopwatch(clock: nat -> real, c: nat) returns (t: real)
      modifies ModCom
      ensures t == clock(c)
      ensures ModCom.events == old(ModCom.events) + [Elapsed(t)]
      ensures ModCom.writeLog == old(ModCom.writeLog) && ModCom.readLog == old(ModCom.readLog)
    {
      t := clock(c);
      ModCom.NoteElapsed(t);
    }
  }
}
