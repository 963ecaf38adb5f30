/** A complete run of `RunTickSequence`, as values: which error it ends in, the writes and
    reads it sends through the transport, and the lists it leaves in the controller. The run
    arms the torque interlock, builds the log's time axis, homes the piston, resets the drive,
    starts the log, plays the targets against the stopwatch, stops, and reads the log back. */
module Run {
  import opened Words
  import opened Units
  import opened Transport
  import opened Outcomes
  import opened Interlock
  import opened Homing
  import opened Logging
  import opened Playback
  import Register
  import Mode

  /** The eleven lists the controller exposes, in declaration order. */
  datatype Lists = Lists(
    recordedTimes: seq<real>, recordedPositions: seq<real>, recordedVelocities: seq<real>,
    recordedTorques: seq<real>, recordedPressures: seq<real>, recordedLinearPositions: seq<real>,
    loggedPositions: seq<real>, loggedTargets: seq<real>, loggedPressures: seq<real>,
    loggedLinearPositions: seq<real>, loggedTime: seq<real>)

  /** Drive off, speed, position and target zeroed, the requested mode, device time zeroed. */
  function ResetWrites(mode: Int16): seq<RegWrite>
  {
    [ RegWrite(Register.Mode, Mode.MotorOff, I16), RegWrite(Register.Speed, 0, I32),
      RegWrite(Register.Position, 0, I32), RegWrite(Register.TargetInput, 0, I32),
      RegWrite(Register.Mode, mode, I16), RegWrite(Register.Time, 0, I32) ]
  }

  /** Logging stopped, target zeroed, drive off. */
  function TeardownWrites(): seq<RegWrite>
  {
    [ RegWrite(Register.LogState, 0, I16), RegWrite(Register.TargetInput, 0, I32),
      RegWrite(Register.Mode, Mode.MotorOff, I16) ]
  }

  /** The contents of a freshly allocated `Int32[n]`. */
  function Zeros(n: nat): (z: seq<int>)
    ensures |z| == n && forall i :: 0 <= i < n ==> z[i] == 0
  {
    seq(n, i => 0)
  }

  /** How a run ends, given the first word the linear sensor returns: unequal lists throw
      before anything is written; an empty schedule throws when the time axis looks up its last
      time; a sensor reading outside the travel range throws at the start of homing. */
  function RunOutcome(ticks: seq<int>, times: seq<real>, firstWord: int): (o: Outcome)
    ensures o == Pass <==> |ticks| == |times| > 0 && InTravel(SensorToMm(firstWord))
  {
    if |ticks| != |times| then Fail(LengthMismatch)
    else if |times| == 0 then Fail(IndexOutOfRange)
    else if !InTravel(SensorToMm(firstWord)) then Fail(SensorOutOfRange)
    else Pass
  }

  /** The homing search, started with the read of index `r0`, ends by read `homeAt`. */
  ghost predicate HomingEnds(reply: nat -> int, r0: nat, homeAt: nat)
  {
    r0 < homeAt && Reached(SensorToMm(reply(homeAt)))
  }

  /** What the playback of a run that gets that far needs to terminate: a stopwatch that
      passes every scheduled time. A run that throws needs nothing. */
  ghost predicate Playable(ticks: seq<int>, times: seq<real>, firstWord: int, clock: nat -> real, deadline: nat)
  {
    RunOutcome(ticks, times, firstWord) == Pass ==> Monotone(clock) && Covers(times, clock, deadline)
  }

  /** The writes of a run whose first sensor word is `firstWord` and whose homing search
      writes `targets`. */
  function RunWrites(ticks: seq<int>, times: seq<real>, mode: Int16, firstWord: int, targets: seq<int>): seq<RegWrite>
  {
    match RunOutcome(ticks, times, firstWord)
    case Fail(LengthMismatch) => []
    case Fail(_) => ArmWrites()
    case Pass =>
      var n := |times|;
      ArmWrites() + HomingWrites(targets) + ResetWrites(mode)
        + LoggingWrites(RegLogFactor(times[n - 1]), 0) + TargetWrites(ticks) + TeardownWrites()
  }

  /** The reads of a run: the sensor reads of the homing search, then the log retrieval. */
  function RunReads(ticks: seq<int>, times: seq<real>, firstWord: int, targets: seq<int>): seq<RegRead>
  {
    match RunOutcome(ticks, times, firstWord)
    case Fail(SensorOutOfRange) => SensorReads(1)
    case Fail(_) => []
    case Pass => SensorReads(|targets| + 1) + LogReads(LogLength)
  }

  /** The timeline of a run: the writes and reads of `RunWrites` and `RunReads`, in the order
      they are sent, with the stopwatch readings of the playback between them. The playback's
      part is `PlayEvents` of the releases the stopwatch makes, whose order `PlaybackOrder`
      states. */
  function RunEvents(ticks: seq<int>, times: seq<real>, mode: Int16, firstWord: int, targets: seq<int>,
                     clock: nat -> real, deadline: nat): seq<Event>
    requires Playable(ticks, times, firstWord, clock, deadline)
  {
    match RunOutcome(ticks, times, firstWord)
    case Fail(LengthMismatch) => []
    case Fail(SensorOutOfRange) => WriteEvents(ArmWrites()) + [Fetched(SensorRead())]
    case Fail(_) => WriteEvents(ArmWrites())
    case Pass =>
      var n := |times|;
      WriteEvents(ArmWrites()) + HomingEvents(targets) + WriteEvents(ResetWrites(mode))
        + WriteEvents(LoggingWrites(RegLogFactor(times[n - 1]), 0))
        + PlayEvents(ticks, clock, Releases(times, clock, 0, deadline), n)
        + WriteEvents(TeardownWrites()) + ReadEvents(LogReads(LogLength))
  }

  /** The lists after a run from lists `s`. The time axis is appended as soon as the schedule
      is known, so a run that fails in homing keeps it; only a completed run replaces the other
      lists. The log is set up for velocity control, so channel 1 holds speed words that are
      decoded and converted as positions. The motor-side recorded arrays are never filled and
      convert to zeros; pressures and linear positions are not recorded. */
  function RunLists(s: Lists, ticks: seq<int>, times: seq<real>, reply: nat -> int, r0: nat, targets: seq<int>,
                    clock: nat -> real, deadline: nat): Lists
    requires Playable(ticks, times, reply(r0), clock, deadline)
  {
    if |ticks| != |times| || |times| == 0 then s
    else
      var withAxis := s.(loggedTime := s.loggedTime + TimeAxis(LogFactor(times[|times| - 1])));
      if !InTravel(SensorToMm(reply(r0))) then withAxis
      else PlayedLists(withAxis, |ticks|, times, reply, r0 + |targets| + 1, clock, deadline)
  }

  /** The lists after the log, whose reads start at index `base`, has been read back with
      position decoding and converted to physical units. */
  function RetrievedLists(s: Lists, reply: nat -> int, base: nat): Lists
  {
    s.(
      loggedPositions := TickToPosition(Decoded(LogChannel(reply, base, 0))),
      loggedTargets := TicksPerSecondToVelocity(Decoded(LogChannel(reply, base, 1))),
      loggedPressures := Uns16ToVdc(LogChannel(reply, base, 2)),
      loggedLinearPositions := Uns16ToLinPos(LogChannel(reply, base, 3)))
  }

  /** The lists after the playback and the log retrieval, whose reads start at index `base`,
      of a run of `n` targets. */
  function PlayedLists(s: Lists, n: nat, times: seq<real>, reply: nat -> int, base: nat,
                       clock: nat -> real, deadline: nat): Lists
    requires Monotone(clock) && Covers(times, clock, deadline)
  {
    RetrievedLists(s, reply, base).(
      recordedPositions := TickToPosition(Zeros(n)),
      recordedVelocities := TicksPerSecondToVelocity(Zeros(n)),
      recordedTorques := MotorTorquesToTorques(Zeros(n)),
      recordedTimes := RecordedTimes(times, clock, deadline))
  }

  /** The writes of a completed run, appended to a trace phase by phase, are its `RunWrites`. */
  lemma RunWritesAppend(w: seq<RegWrite>, ticks: seq<int>, times: seq<real>, mode: Int16, firstWord: int,
                        targets: seq<int>)
    requires RunOutcome(ticks, times, firstWord) == Pass
    ensures w + ArmWrites() + HomingWrites(targets) + ResetWrites(mode)
        + LoggingWrites(RegLogFactor(times[|times| - 1]), 0) + TargetWrites(ticks) + TeardownWrites()
      == w + RunWrites(ticks, times, mode, firstWord, targets)
  {
    var a := ArmWrites();
    var h := HomingWrites(targets);
    var r := ResetWrites(mode);
    var l := LoggingWrites(RegLogFactor(times[|times| - 1]), 0);
    var t := TargetWrites(ticks);
    var d := TeardownWrites();
    AppendAssoc(w, a, h);
    AppendAssoc(w, a + h, r);
    AppendAssoc(w, a + h + r, l);
    AppendAssoc(w, a + h + r + l, t);
    AppendAssoc(w, a + h + r + l + t, d);
  }

  /** The playback's lists are the retrieved log's lists `retrieved` with the recorded lists set
      from the never-filled motor-side arrays and from the stopwatch readings `stamps`. */
  lemma PlayedListsStored(s: Lists, retrieved: Lists, n: nat, times: seq<real>, reply: nat -> int, base: nat,
                          clock: nat -> real, deadline: nat, positions: seq<int>, velocities: seq<int>,
                          torques: seq<int>, stamps: seq<real>)
    requires Monotone(clock) && Covers(times, clock, deadline)
    requires retrieved == RetrievedLists(s, reply, base)
    requires positions == Zeros(n) && velocities == Zeros(n) && torques == Zeros(n)
    requires stamps == RecordedTimes(times, clock, deadline)
    ensures retrieved.(recordedPositions := TickToPosition(positions),
                       recordedVelocities := TicksPerSecondToVelocity(velocities),
                       recordedTorques := MotorTorquesToTorques(torques),
                       recordedTimes := stamps)
      == PlayedLists(s, n, times, reply, base, clock, deadline)
  { }

  /** The lists after a completed run from lists `s`: the time axis appended, giving `axis`,
      then the playback's lists, whose log reads start at `base`, right after the homing
      search's sensor reads. */
  lemma CompletedRunLists(s: Lists, axis: Lists, ticks: seq<int>, times: seq<real>, reply: nat -> int, r0: nat,
                          targets: seq<int>, base: nat, clock: nat -> real, deadline: nat)
    requires RunOutcome(ticks, times, reply(r0)) == Pass
    requires Playable(ticks, times, reply(r0), clock, deadline)
    requires axis == s.(loggedTime := s.loggedTime + TimeAxis(LogFactor(times[|times| - 1])))
    requires base == r0 + |targets| + 1
    ensures PlayedLists(axis, |ticks|, times, reply, base, clock, deadline)
      == RunLists(s, ticks, times, reply, r0, targets, clock, deadline)
  { }

  /** The timeline of a completed run, appended to a timeline phase by phase, is its
      `RunEvents`. */
  lemma RunEventsAppend(e: seq<Event>, ticks: seq<int>, times: seq<real>, mode: Int16, firstWord: int,
                        targets: seq<int>, clock: nat -> real, deadline: nat)
    requires RunOutcome(ticks, times, firstWord) == Pass
    requires Playable(ticks, times, firstWord, clock, deadline)
    ensures e + WriteEvents(ArmWrites()) + HomingEvents(targets) + WriteEvents(ResetWrites(mode))
        + WriteEvents(LoggingWrites(RegLogFactor(times[|times| - 1]), 0))
        + PlayEvents(ticks, clock, Releases(times, clock, 0, deadline), |ticks|)
        + WriteEvents(TeardownWrites()) + ReadEvents(LogReads(LogLength))
      == e + RunEvents(ticks, times, mode, firstWord, targets, clock, deadline)
  {
    var a := WriteEvents(ArmWrites());
    var h := HomingEvents(targets);
    var r := WriteEvents(ResetWrites(mode));
    var l := WriteEvents(LoggingWrites(RegLogFactor(times[|times| - 1]), 0));
    var p := PlayEvents(ticks, clock, Releases(times, clock, 0, deadline), |ticks|);
    var d := WriteEvents(TeardownWrites());
    var g := ReadEvents(LogReads(LogLength));
    AppendAssoc(e, a, h);
    AppendAssoc(e, a + h, r);
    AppendAssoc(e, a + h + r, l);
    AppendAssoc(e, a + h + r + l, p);
    AppendAssoc(e, a + h + r + l + p, d);
    AppendAssoc(e, a + h + r + l + p + d, g);
  }

  /** The reads of a completed run, appended phase by phase, are its `RunReads`. */
  lemma RunReadsAppend(r: seq<RegRead>, ticks: seq<int>, times: seq<real>, firstWord: int, targets: seq<int>)
    requires RunOutcome(ticks, times, firstWord) == Pass
    ensures r + SensorReads(|targets| + 1) + LogReads(LogLength) == r + RunReads(ticks, times, firstWord, targets)
  {
    AppendAssoc(r, SensorReads(|targets| + 1), LogReads(LogLength));
  }

  // ---- properties ----

  /** The timeline of a run holds exactly the run's writes, in order, and exactly its reads,
      in order: whatever it adds between them are stopwatch readings. */
  lemma RunTimeline(ticks: seq<int>, times: seq<real>, mode: Int16, firstWord: int, targets: seq<int>,
                    clock: nat -> real, deadline: nat)
    requires Playable(ticks, times, firstWord, clock, deadline)
    ensures WritesOf(RunEvents(ticks, times, mode, firstWord, targets, clock, deadline))
         == RunWrites(ticks, times, mode, firstWord, targets)
    ensures ReadsOf(RunEvents(ticks, times, mode, firstWord, targets, clock, deadline))
         == RunReads(ticks, times, firstWord, targets)
  {
    OfWriteEvents(ArmWrites());
    match RunOutcome(ticks, times, firstWord)
    case Fail(LengthMismatch) =>
    case Fail(SensorOutOfRange) =>
      OfSnoc(WriteEvents(ArmWrites()), Fetched(SensorRead()));
      assert SensorReads(1) == [SensorRead()];
    case Fail(IndexOutOfRange) =>
    case Pass =>
      CompletedTimeline(ticks, times, mode, targets, clock, deadline);
  }

  /** The writes and reads of a completed run's timeline, phase by phase. */
  lemma CompletedTimeline(ticks: seq<int>, times: seq<real>, mode: Int16, targets: seq<int>,
                          clock: nat -> real, deadline: nat)
    requires |ticks| == |times| > 0 && Monotone(clock) && Covers(times, clock, deadline)
    ensures var e := WriteEvents(ArmWrites()) + HomingEvents(targets) + WriteEvents(ResetWrites(mode))
        + WriteEvents(LoggingWrites(RegLogFactor(times[|times| - 1]), 0))
        + PlayEvents(ticks, clock, Releases(times, clock, 0, deadline), |times|)
        + WriteEvents(TeardownWrites()) + ReadEvents(LogReads(LogLength));
      && WritesOf(e) == ArmWrites() + HomingWrites(targets) + ResetWrites(mode)
           + LoggingWrites(RegLogFactor(times[|times| - 1]), 0) + TargetWrites(ticks) + TeardownWrites()
      && ReadsOf(e) == SensorReads(|targets| + 1) + LogReads(LogLength)
  {
    var a := WriteEvents(ArmWrites());
    var h := HomingEvents(targets);
    var r := WriteEvents(ResetWrites(mode));
    var l := WriteEvents(LoggingWrites(RegLogFactor(times[|times| - 1]), 0));
    var p := PlayEvents(ticks, clock, Releases(times, clock, 0, deadline), |times|);
    var d := WriteEvents(TeardownWrites());
    var g := ReadEvents(LogReads(LogLength));
    OfAppend(a, h);
    OfAppend(a + h, r);
    OfAppend(a + h + r, l);
    OfAppend(a + h + r + l, p);
    OfAppend(a + h + r + l + p, d);
    OfAppend(a + h + r + l + p + d, g);
    CompletedWrites(ticks, times, mode, targets, clock, deadline);
    CompletedReads(ticks, times, mode, targets, clock, deadline);
  }

  /** The writes of the phases of a completed run. */
  lemma CompletedWrites(ticks: seq<int>, times: seq<real>, mode: Int16, targets: seq<int>,
                        clock: nat -> real, deadline: nat)
    requires |ticks| == |times| > 0 && Monotone(clock) && Covers(times, clock, deadline)
    ensures WritesOf(WriteEvents(ArmWrites())) + WritesOf(HomingEvents(targets))
        + WritesOf(WriteEvents(ResetWrites(mode)))
        + WritesOf(WriteEvents(LoggingWrites(RegLogFactor(times[|times| - 1]), 0)))
        + WritesOf(PlayEvents(ticks, clock, Releases(times, clock, 0, deadline), |times|))
        + WritesOf(WriteEvents(TeardownWrites())) + WritesOf(ReadEvents(LogReads(LogLength)))
      == ArmWrites() + HomingWrites(targets) + ResetWrites(mode)
        + LoggingWrites(RegLogFactor(times[|times| - 1]), 0) + TargetWrites(ticks) + TeardownWrites()
  {
    OfWriteEvents(ArmWrites());
    OfHomingEvents(targets);
    OfWriteEvents(ResetWrites(mode));
    OfWriteEvents(LoggingWrites(RegLogFactor(times[|times| - 1]), 0));
    OfPlayEvents(ticks, clock, Releases(times, clock, 0, deadline), |times|);
    assert ticks[..|times|] == ticks;
    OfWriteEvents(TeardownWrites());
    OfReadEvents(LogReads(LogLength));
    var w := ArmWrites() + HomingWrites(targets) + ResetWrites(mode)
        + LoggingWrites(RegLogFactor(times[|times| - 1]), 0) + TargetWrites(ticks) + TeardownWrites();
    assert w + [] == w;
  }

  /** The reads of the phases of a completed run. */
  lemma CompletedReads(ticks: seq<int>, times: seq<real>, mode: Int16, targets: seq<int>,
                       clock: nat -> real, deadline: nat)
    requires |ticks| == |times| > 0 && Monotone(clock) && Covers(times, clock, deadline)
    ensures ReadsOf(WriteEvents(ArmWrites())) + ReadsOf(HomingEvents(targets))
        + ReadsOf(WriteEvents(ResetWrites(mode)))
        + ReadsOf(WriteEvents(LoggingWrites(RegLogFactor(times[|times| - 1]), 0)))
        + ReadsOf(PlayEvents(ticks, clock, Releases(times, clock, 0, deadline), |times|))
        + ReadsOf(WriteEvents(TeardownWrites())) + ReadsOf(ReadEvents(LogReads(LogLength)))
      == SensorReads(|targets| + 1) + LogReads(LogLength)
  {
    OfWriteEvents(ArmWrites());
    OfHomingEvents(targets);
    OfWriteEvents(ResetWrites(mode));
    OfWriteEvents(LoggingWrites(RegLogFactor(times[|times| - 1]), 0));
    OfPlayEvents(ticks, clock, Releases(times, clock, 0, deadline), |times|);
    OfWriteEvents(TeardownWrites());
    OfReadEvents(LogReads(LogLength));
    assert [] + SensorReads(|targets| + 1) + [] + [] + [] + [] == SensorReads(|targets| + 1);
  }

  /** The number of writes before the first target of a completed run. */
  function TargetOffset(searchLength: nat): nat
  {
    7 + (8 + searchLength) + 6 + 6
  }

  /** A completed run writes the targets in schedule order, each once, as one contiguous block
      right after the log is started, and writes exactly three more registers after them. */
  lemma TargetsInOrder(ticks: seq<int>, times: seq<real>, mode: Int16, firstWord: int, targets: seq<int>)
    requires RunOutcome(ticks, times, firstWord) == Pass
    ensures var w := RunWrites(ticks, times, mode, firstWord, targets);
      var off := TargetOffset(|targets|);
      && |w| == off + |ticks| + 3
      && (forall i :: 0 <= i < |ticks| ==> w[off + i] == RegWrite(Register.TargetInput, ticks[i], I32))
      && w[off + |ticks|..] == TeardownWrites()
  {
    var ts := targets;
    var n := |times|;
    var w := RunWrites(ticks, times, mode, firstWord, targets);
    var pre := ArmWrites() + HomingWrites(ts) + ResetWrites(mode) + LoggingWrites(RegLogFactor(times[n - 1]), 0);
    assert |ArmWrites()| == 7;
    assert |pre| == TargetOffset(|ts|);
    assert w == pre + TargetWrites(ticks) + TeardownWrites();
    forall i | 0 <= i < |ticks|
      ensures w[TargetOffset(|ts|) + i] == RegWrite(Register.TargetInput, ticks[i], I32)
    {
      assert w[|pre| + i] == TargetWrites(ticks)[i];
    }
  }

  /** While the targets play, the drive is in the requested mode, the device clock was zeroed
      and the log is running: these are the last values written to those registers before the
      first target. */
  lemma PlaybackConditions(ticks: seq<int>, times: seq<real>, mode: Int16, firstWord: int, targets: seq<int>)
    requires RunOutcome(ticks, times, firstWord) == Pass
    ensures var w := RunWrites(ticks, times, mode, firstWord, targets);
      var off := TargetOffset(|targets|);
      && off <= |w|
      && LastValueAt(w[..off], Register.Mode) == Some(mode as int)
      && LastValueAt(w[..off], Register.Time) == Some(0)
      && LastValueAt(w[..off], Register.LogState) == Some(2)
  {
    var ts := targets;
    var n := |times|;
    var w := RunWrites(ticks, times, mode, firstWord, targets);
    var front := ArmWrites() + HomingWrites(ts) + ResetWrites(mode);
    var logging := LoggingWrites(RegLogFactor(times[n - 1]), 0);
    TargetsInOrder(ticks, times, mode, firstWord, targets);
    assert |ArmWrites()| == 7;
    assert w[..TargetOffset(|ts|)] == front + logging;
    var head := ArmWrites() + HomingWrites(ts);
    assert front == head + ResetWrites(mode);
    LastValueAfter(front, logging, Register.Mode);
    LastValueAfter(front, logging, Register.Time);
    LastValueAfter(front, logging, Register.LogState);
    LastValueAfter(head, ResetWrites(mode), Register.Mode);
    LastValueAfter(head, ResetWrites(mode), Register.Time);
  }

  /** A completed run leaves the drive off, the target at 0 and the log stopped. */
  lemma RunEndsSafe(ticks: seq<int>, times: seq<real>, mode: Int16, firstWord: int, targets: seq<int>)
    requires RunOutcome(ticks, times, firstWord) == Pass
    ensures var w := RunWrites(ticks, times, mode, firstWord, targets);
      && LastValueAt(w, Register.Mode) == Some(Mode.MotorOff as int)
      && LastValueAt(w, Register.TargetInput) == Some(0)
      && LastValueAt(w, Register.LogState) == Some(0)
  {
    var ts := targets;
    var n := |times|;
    var body := ArmWrites() + HomingWrites(ts) + ResetWrites(mode)
      + LoggingWrites(RegLogFactor(times[n - 1]), 0) + TargetWrites(ticks);
    assert RunWrites(ticks, times, mode, firstWord, targets) == body + TeardownWrites();
    LastValueAfter(body, TeardownWrites(), Register.Mode);
    LastValueAfter(body, TeardownWrites(), Register.TargetInput);
    LastValueAfter(body, TeardownWrites(), Register.LogState);
  }

  /** A run that throws never writes the Mode register, a target or the log state, so it never
      starts the drive; unequal lists write nothing at all; only the sensor check reads. */
  lemma FailuresNeverStart(ticks: seq<int>, times: seq<real>, mode: Int16, firstWord: int, targets: seq<int>)
    requires RunOutcome(ticks, times, firstWord).Fail?
    ensures var w := RunWrites(ticks, times, mode, firstWord, targets);
      && LastValueAt(w, Register.Mode).None?
      && LastValueAt(w, Register.TargetInput).None?
      && LastValueAt(w, Register.LogState).None?
      && (RunOutcome(ticks, times, firstWord) == Fail(LengthMismatch) ==> w == [])
      && |RunReads(ticks, times, firstWord, targets)| == (if RunOutcome(ticks, times, firstWord) == Fail(SensorOutOfRange) then 1 else 0)
  {
    ArmingWrites();
  }

  /** The time axis and the logged channels of a completed run line up only when the axis was
      empty before: every run that gets past the length checks appends 500 more times, while
      the channels are replaced by 500 fresh samples. */
  lemma LogAlignment(s: Lists, ticks: seq<int>, times: seq<real>, reply: nat -> int, r0: nat, targets: seq<int>,
                     clock: nat -> real, deadline: nat)
    requires Playable(ticks, times, reply(r0), clock, deadline)
    ensures var t := RunLists(s, ticks, times, reply, r0, targets, clock, deadline);
      && (|ticks| == |times| > 0 ==> |t.loggedTime| == |s.loggedTime| + LogLength && t.loggedTime[..|s.loggedTime|] == s.loggedTime)
      && (RunOutcome(ticks, times, reply(r0)) == Pass ==>
            |t.loggedPositions| == |t.loggedTargets| == |t.loggedPressures| == |t.loggedLinearPositions| == LogLength
            && (|t.loggedTime| == |t.loggedPositions| <==> s.loggedTime == []))
      && (RunOutcome(ticks, times, reply(r0)) != Pass ==> t.(loggedTime := s.loggedTime) == s)
  {
  }

  /** After a completed run the recorded lists have one entry per target: the motor-side ones
      are all zero, and every recorded time is at least its scheduled time and no earlier than
      the one before it. */
  lemma RecordedAfterRun(s: Lists, ticks: seq<int>, times: seq<real>, reply: nat -> int, r0: nat, targets: seq<int>,
                         clock: nat -> real, deadline: nat)
    requires Playable(ticks, times, reply(r0), clock, deadline)
    requires RunOutcome(ticks, times, reply(r0)) == Pass
    ensures var t := RunLists(s, ticks, times, reply, r0, targets, clock, deadline);
      && |t.recordedTimes| == |t.recordedPositions| == |t.recordedVelocities| == |t.recordedTorques| == |ticks|
      && (forall i :: 0 <= i < |ticks| ==>
            t.recordedPositions[i] == 0.0 && t.recordedVelocities[i] == 0.0 && t.recordedTorques[i] == 0.0)
      && (forall i :: 0 <= i < |ticks| ==> times[i] <= t.recordedTimes[i])
      && (forall i, j :: 0 <= i <= j < |ticks| ==> t.recordedTimes[i] <= t.recordedTimes[j])
      && t.recordedPressures == s.recordedPressures && t.recordedLinearPositions == s.recordedLinearPositions
  {
    RecordedBounds(times, clock, deadline);
  }

  /** The logged positions lie in (-256, 256] mm and the logged targets in [-409.6, 409.6] mm/s,
      because both are decoded from 16-bit words; the logged pressures are all zero. */
  lemma {:induction false} LoggedRanges(s: Lists, ticks: seq<int>, times: seq<real>, reply: nat -> int, r0: nat,
                                         targets: seq<int>, clock: nat -> real, deadline: nat)
    requires Playable(ticks, times, reply(r0), clock, deadline)
    requires RunOutcome(ticks, times, reply(r0)) == Pass
    ensures var t := RunLists(s, ticks, times, reply, r0, targets, clock, deadline);
      && (forall i :: 0 <= i < |t.loggedPositions| ==> -256.0 < t.loggedPositions[i] <= 256.0)
      && (forall i :: 0 <= i < |t.loggedTargets| ==> -409.6 <= t.loggedTargets[i] <= 409.6)
      && (forall i :: 0 <= i < |t.loggedPressures| ==> t.loggedPressures[i] == 0.0)
  {
    var base := r0 + |targets| + 1;
    var t := RunLists(s, ticks, times, reply, r0, targets, clock, deadline);
    var p := Decoded(LogChannel(reply, base, 0));
    var q := Decoded(LogChannel(reply, base, 1));
    DecodedRange(LogChannel(reply, base, 0));
    DecodedRange(LogChannel(reply, base, 1));
    PressureChannelIsZero(LogChannel(reply, base, 2));
    forall i | 0 <= i < |t.loggedPositions|
      ensures -256.0 < t.loggedPositions[i] <= 256.0
    {
      TickRoundTrip(p[i]);
    }
    forall i | 0 <= i < |t.loggedTargets|
      ensures -409.6 <= t.loggedTargets[i] <= 409.6
    {
      VelocityTickRoundTrip(q[i]);
    }
  }
}
