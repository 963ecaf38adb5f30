/** The playback loop of `RunTickSequence`: a busy wait over a stopwatch that writes target i
    once the elapsed time reaches times[i]. The stopwatch is the oracle `clock`, where
    `clock(k)` is the elapsed time the k-th reading returns; each loop iteration reads it once,
    and each write is followed by a second reading that is recorded. */
module Playback {
  import opened Transport
  import Register

  /** Reading `a` is taken no later than reading `b`. */
  ghost predicate NotAfter(a: nat, b: nat)
  {
    a <= b
  }

  /** A stopwatch never runs backwards. (The fact is used for a pair of readings only where
      `NotAfter` names that pair, as `ClockAt` does.) */
  ghost predicate Monotone(clock: nat -> real)
  {
    forall a: nat, b: nat {:trigger NotAfter(a, b)} :: NotAfter(a, b) ==> clock(a) <= clock(b)
  }

  /** By reading `deadline` the stopwatch has passed every scheduled time. */
  ghost predicate Covers(times: seq<real>, clock: nat -> real, deadline: nat)
  {
    forall i :: 0 <= i < |times| ==> times[i] <= clock(deadline)
  }

  /** The first reading, from index `c` on, that has reached `time`. */
  function FirstAtLeast(time: real, clock: nat -> real, c: nat, deadline: nat): (k: nat)
    requires Monotone(clock) && time <= clock(deadline)
    ensures c <= k && time <= clock(k)
    ensures forall j :: c <= j < k ==> clock(j) < time
    decreases if c <= deadline then deadline - c else 0
  {
    if time <= clock(c) then c
    else
      Pending(clock, time, c, deadline);
      FirstAtLeast(time, clock, c + 1, deadline)
  }

  /** The index of the reading that releases each write, when the loop's next reading is `c`:
      a write consumes its releasing reading and the recording reading after it. */
  function Releases(times: seq<real>, clock: nat -> real, c: nat, deadline: nat): (rel: seq<nat>)
    requires Monotone(clock) && Covers(times, clock, deadline)
    ensures |rel| == |times|
    decreases |times|
  {
    if times == [] then []
    else
      var k := FirstAtLeast(times[0], clock, c, deadline);
      CoversTail(times, clock, deadline);
      [k] + Releases(times[1..], clock, k + 2, deadline)
  }

  /** `StopwatchRecordedTimes`: the reading taken right after each write. */
  function RecordedTimes(times: seq<real>, clock: nat -> real, deadline: nat): (recorded: seq<real>)
    requires Monotone(clock) && Covers(times, clock, deadline)
    ensures |recorded| == |times|
  {
    var rel := Releases(times, clock, 0, deadline);
    seq(|times|, i requires 0 <= i < |times| => clock(rel[i] + 1))
  }

  /** The target writes of a playback, in index order, each as Int32. */
  function TargetWrites(ticks: seq<int>): seq<RegWrite>
  {
    Writes(Register.TargetInput, ticks, I32)
  }

  /** Writing one more target of the schedule appends its write. */
  lemma TargetWritesSnoc(w: seq<RegWrite>, ticks: seq<int>, i: nat)
    requires i < |ticks|
    ensures w + TargetWrites(ticks[..i]) + [RegWrite(Register.TargetInput, ticks[i], I32)]
         == w + TargetWrites(ticks[..i + 1])
  {
    assert ticks[..i + 1] == ticks[..i] + [ticks[i]];
    WritesSnoc(Register.TargetInput, ticks[..i], ticks[i], I32);
  }

  /** The reading from which the next write waits: the first one for the first write, else
      the reading after the previous write's recording reading. */
  function Start(rel: seq<nat>): nat
  {
    if rel == [] then 0 else rel[|rel| - 1] + 2
  }

  /** The reading taken right after each releasing reading. */
  function Stamps(clock: nat -> real, rel: seq<nat>): (stamps: seq<real>)
    ensures |stamps| == |rel|
  {
    seq(|rel|, j requires 0 <= j < |rel| => clock(rel[j] + 1))
  }

  /** No reading from `from` up to, not including, `upto` has reached `time`. */
  ghost predicate Waited(time: real, clock: nat -> real, from: nat, upto: nat)
  {
    forall k :: from <= k < upto ==> clock(k) < time
  }

  /** The first |rel| writes were released by the readings `rel`, one at a time: each by the
      first reading, from the one its predecessor left off at, that has reached its time. */
  ghost predicate Released(times: seq<real>, clock: nat -> real, rel: seq<nat>)
    decreases |rel|
  {
    && |rel| <= |times|
    && (rel != [] ==>
         var i := |rel| - 1;
         && Released(times, clock, rel[..i])
         && Start(rel[..i]) <= rel[i]
         && times[i] <= clock(rel[i])
         && Waited(times[i], clock, Start(rel[..i]), rel[i]))
  }

  /** The readings `clock(a)` up to, not including, `clock(b)`, as timeline events. */
  function Readings(clock: nat -> real, a: nat, b: nat): (e: seq<Event>)
    ensures |e| == if a <= b then b - a else 0
    decreases b
  {
    if a < b then Readings(clock, a, b - 1) + [Elapsed(clock(b - 1))] else []
  }

  /** The reading from which write i waits: `Start` of the writes before it. */
  function BlockStart(rel: seq<nat>, i: nat): nat
    requires i <= |rel|
  {
    if i == 0 then 0 else rel[i - 1] + 2
  }

  /** The part of a playback's timeline that belongs to one write: the readings from `s` on
      that had not reached its time, the reading `r` that released it, the write of `x`, and
      the reading recorded after it. */
  function Block(clock: nat -> real, s: nat, r: nat, x: int): seq<Event>
  {
    Readings(clock, s, r) + [Elapsed(clock(r)), Wrote(RegWrite(Register.TargetInput, x, I32)), Elapsed(clock(r + 1))]
  }

  /** The timeline of the first `n` writes of a playback whose writes `ticks` are released
      by the readings `rel`: one block per write, each starting where the previous one left
      off. */
  function PlayEvents(ticks: seq<int>, clock: nat -> real, rel: seq<nat>, n: nat): seq<Event>
    requires n <= |rel| && n <= |ticks|
    decreases n
  {
    if n == 0 then []
    else PlayEvents(ticks, clock, rel, n - 1) + Block(clock, BlockStart(rel, n - 1), rel[n - 1], ticks[n - 1])
  }

  /** One more reading short of the next write's time extends the wait. */
  lemma {:induction false} ReadingsSnoc(clock: nat -> real, a: nat, c: nat)
    requires a <= c
    ensures Readings(clock, a, c) + [Elapsed(clock(c))] == Readings(clock, a, c + 1)
  {
  }

  /** The timeline of the first `n` writes depends only on their releases. */
  lemma {:induction false} PlayEventsExtend(ticks: seq<int>, clock: nat -> real, rel: seq<nat>, x: nat, n: nat)
    requires n <= |rel| && n <= |ticks|
    ensures PlayEvents(ticks, clock, rel + [x], n) == PlayEvents(ticks, clock, rel, n)
    decreases n
  {
    if n > 0 {
      PlayEventsExtend(ticks, clock, rel, x, n - 1);
      assert (rel + [x])[n - 1] == rel[n - 1];
      assert BlockStart(rel + [x], n - 1) == BlockStart(rel, n - 1);
    }
  }

  /** A pass of the playback loop that releases write i: the readings it waited through since
      `Start(rel)`, the releasing reading `c`, the write and the recording reading complete
      the block of write i. */
  lemma {:induction false} PlayEventsRelease(ticks: seq<int>, clock: nat -> real, rel: seq<nat>, c: nat)
    requires |rel| < |ticks| && Start(rel) <= c
    ensures PlayEvents(ticks, clock, rel, |rel|) + Readings(clock, Start(rel), c)
        + [Elapsed(clock(c)), Wrote(RegWrite(Register.TargetInput, ticks[|rel|], I32)), Elapsed(clock(c + 1))]
      == PlayEvents(ticks, clock, rel + [c], |rel| + 1) + Readings(clock, Start(rel + [c]), c + 2)
  {
    var i := |rel|;
    var front := PlayEvents(ticks, clock, rel, i);
    var waits := Readings(clock, Start(rel), c);
    var last := [Elapsed(clock(c)), Wrote(RegWrite(Register.TargetInput, ticks[i], I32)), Elapsed(clock(c + 1))];
    PlayEventsExtend(ticks, clock, rel, c, i);
    assert (rel + [c])[i] == c;
    assert PlayEvents(ticks, clock, rel + [c], i + 1) == front + (waits + last);
    AppendAssoc(front, waits, last);
    assert Readings(clock, Start(rel + [c]), c + 2) == [];
  }

  /** The timeline of the playback loop from its state (i, c) on: i writes done, and `c` the
      index of the stopwatch's next reading. Each pass reads the stopwatch; once the reading
      has reached times[i], target i is written and the next reading recorded. */
  function PlayTrace(ticks: seq<int>, times: seq<real>, clock: nat -> real, deadline: nat, i: nat, c: nat): seq<Event>
    requires Monotone(clock) && Covers(times, clock, deadline) && |ticks| == |times| && i <= |times|
    decreases |times| - i, if c <= deadline then deadline - c else 0
  {
    if i == |times| then []
    else if times[i] <= clock(c) then
      [Elapsed(clock(c)), Wrote(RegWrite(Register.TargetInput, ticks[i], I32)), Elapsed(clock(c + 1))]
        + PlayTrace(ticks, times, clock, deadline, i + 1, c + 2)
    else
      Pending(clock, times[i], c, deadline);
      [Elapsed(clock(c))] + PlayTrace(ticks, times, clock, deadline, i, c + 1)
  }

  /** A pass of the loop at state (i, c) whose reading has reached times[i]: after the
      reading, the write and the recording reading, the loop goes on from (i + 1, c + 2). */
  lemma PlayTraceRelease(ticks: seq<int>, times: seq<real>, clock: nat -> real, deadline: nat, i: nat, c: nat,
                         e: seq<Event>, whole: seq<Event>)
    requires Monotone(clock) && Covers(times, clock, deadline) && |ticks| == |times| && i < |times|
    requires times[i] <= clock(c) && e + PlayTrace(ticks, times, clock, deadline, i, c) == whole
    ensures e + [Elapsed(clock(c))] + [Wrote(RegWrite(Register.TargetInput, ticks[i], I32)), Elapsed(clock(c + 1))]
        + PlayTrace(ticks, times, clock, deadline, i + 1, c + 2) == whole
  {
    var x, y, z := Elapsed(clock(c)), Wrote(RegWrite(Register.TargetInput, ticks[i], I32)), Elapsed(clock(c + 1));
    var rest := PlayTrace(ticks, times, clock, deadline, i + 1, c + 2);
    assert e + [x] + [y, z] + rest == e + ([x, y, z] + rest);
  }

  /** A pass of the loop at state (i, c) whose reading has not reached times[i]: after the
      reading, the loop goes on from (i, c + 1). */
  lemma PlayTraceWait(ticks: seq<int>, times: seq<real>, clock: nat -> real, deadline: nat, i: nat, c: nat,
                      e: seq<Event>, whole: seq<Event>)
    requires Monotone(clock) && Covers(times, clock, deadline) && |ticks| == |times| && i < |times|
    requires clock(c) < times[i] && e + PlayTrace(ticks, times, clock, deadline, i, c) == whole
    ensures e + [Elapsed(clock(c))] + PlayTrace(ticks, times, clock, deadline, i, c + 1) == whole
  {
    var rest := PlayTrace(ticks, times, clock, deadline, i, c + 1);
    assert e + [Elapsed(clock(c))] + rest == e + ([Elapsed(clock(c))] + rest);
  }

  /** A pass of the loop at state (i, c) whose reading has not reached times[i] keeps the
      loop's invariants: the deadline still lies ahead, write i has waited one reading more,
      and the timeline goes on from (i, c + 1). */
  lemma WaitPass(ticks: seq<int>, times: seq<real>, clock: nat -> real, deadline: nat, i: nat, c: nat,
                 from: nat, e: seq<Event>, whole: seq<Event>)
    requires Monotone(clock) && Covers(times, clock, deadline) && |ticks| == |times| && i < |times|
    requires Waited(times[i], clock, from, c) && clock(c) < times[i]
    requires e + PlayTrace(ticks, times, clock, deadline, i, c) == whole
    ensures c < deadline && Waited(times[i], clock, from, c + 1)
    ensures e + [Elapsed(clock(c))] + PlayTrace(ticks, times, clock, deadline, i, c + 1) == whole
  {
    BeforeDeadline(times, clock, deadline, i, c);
    PlayTraceWait(ticks, times, clock, deadline, i, c, e, whole);
  }

  /** The writes of the first `n` targets are those of the first n - 1 and the write of
      target n - 1. */
  lemma TargetWritesTake(ticks: seq<int>, n: nat)
    requires 0 < n <= |ticks|
    ensures TargetWrites(ticks[..n - 1]) + [RegWrite(Register.TargetInput, ticks[n - 1], I32)] == TargetWrites(ticks[..n])
  {
    assert ticks[..n] == ticks[..n - 1] + [ticks[n - 1]];
    WritesSnoc(Register.TargetInput, ticks[..n - 1], ticks[n - 1], I32);
  }

  // ---- properties ----

  /** The scheduled times after the first are covered as well. */
  lemma CoversTail(times: seq<real>, clock: nat -> real, deadline: nat)
    requires |times| > 0 && Covers(times, clock, deadline)
    ensures Covers(times[1..], clock, deadline)
  {
    forall i | 0 <= i < |times| - 1 ensures times[1..][i] <= clock(deadline) {
      assert times[1..][i] == times[i + 1];
    }
  }

  /** A reading short of the next write's time extends the wait by one reading. */
  lemma WaitedSnoc(time: real, clock: nat -> real, from: nat, c: nat)
    requires Waited(time, clock, from, c) && clock(c) < time
    ensures Waited(time, clock, from, c + 1)
  {
  }

  /** While the stopwatch has not reached a scheduled time its deadline lies ahead. */
  lemma BeforeDeadline(times: seq<real>, clock: nat -> real, deadline: nat, i: nat, c: nat)
    requires Monotone(clock) && Covers(times, clock, deadline)
    requires i < |times| && clock(c) < times[i]
    ensures c < deadline
  {
    Pending(clock, times[i], c, deadline);
  }

  /** A reading short of a time the deadline reading has reached comes before the deadline. */
  lemma Pending(clock: nat -> real, time: real, c: nat, deadline: nat)
    requires Monotone(clock) && time <= clock(deadline) && clock(c) < time
    ensures c < deadline
  {
    if deadline <= c {
      ClockAt(clock, deadline, c);
    }
  }

  /** A reading that has reached the next write's time, after waiting since `Start(rel)`,
      releases that write; the next write waits from two readings later. */
  lemma ReleasedSnoc(times: seq<real>, clock: nat -> real, rel: seq<nat>, c: nat)
    requires Released(times, clock, rel) && |rel| < |times|
    requires Start(rel) <= c && times[|rel|] <= clock(c) && Waited(times[|rel|], clock, Start(rel), c)
    ensures Released(times, clock, rel + [c]) && Start(rel + [c]) == c + 2
  {
    assert (rel + [c])[..|rel|] == rel;
  }

  /** One more release adds its recording reading. */
  lemma StampsSnoc(clock: nat -> real, rel: seq<nat>, c: nat)
    ensures Stamps(clock, rel + [c]) == Stamps(clock, rel) + [clock(c + 1)]
  {
  }

  /** A released write is the first reading from its start that reached its time. */
  lemma FirstAtLeastUnique(time: real, clock: nat -> real, from: nat, k: nat, deadline: nat)
    requires Monotone(clock) && time <= clock(deadline)
    requires from <= k && time <= clock(k) && Waited(time, clock, from, k)
    ensures k == FirstAtLeast(time, clock, from, deadline)
  {
  }

  /** The releases are uniquely determined: readings that release the writes one at a time
      are those `Releases` computes. */
  lemma {:induction false} ReleasedUnique(times: seq<real>, clock: nat -> real, deadline: nat, rel: seq<nat>)
    requires Monotone(clock) && Covers(times, clock, deadline) && Released(times, clock, rel)
    ensures rel == Releases(times, clock, 0, deadline)[..|rel|]
    decreases |rel|
  {
    if rel != [] {
      var i := |rel| - 1;
      var all := Releases(times, clock, 0, deadline);
      ReleasedUnique(times, clock, deadline, rel[..i]);
      FirstAtLeastUnique(times[i], clock, Start(rel[..i]), rel[i], deadline);
      ReleaseAt(times, clock, 0, deadline, i);
      assert rel[i] == all[i];
      assert rel == rel[..i] + [rel[i]];
    }
  }

  /** The recorded times of a completed playback are the ones `RecordedTimes` computes. */
  lemma RecordedAreStamps(times: seq<real>, clock: nat -> real, deadline: nat, rel: seq<nat>)
    requires Monotone(clock) && Covers(times, clock, deadline)
    requires Released(times, clock, rel) && |rel| == |times|
    ensures Stamps(clock, rel) == RecordedTimes(times, clock, deadline)
  {
    ReleasedUnique(times, clock, deadline, rel);
    assert rel == Releases(times, clock, 0, deadline);
  }

  /** Write i is released by the first reading that has reached times[i], counting from the
      reading after the previous write's recording reading (from `c` for the first write). */
  lemma {:induction false} ReleaseAt(times: seq<real>, clock: nat -> real, c: nat, deadline: nat, i: nat)
    requires Monotone(clock) && Covers(times, clock, deadline) && i < |times|
    ensures var rel := Releases(times, clock, c, deadline);
      rel[i] == FirstAtLeast(times[i], clock, if i == 0 then c else rel[i - 1] + 2, deadline)
    decreases i
  {
    if i > 0 {
      var rel := Releases(times, clock, c, deadline);
      var k := FirstAtLeast(times[0], clock, c, deadline);
      CoversTail(times, clock, deadline);
      var rest := Releases(times[1..], clock, k + 2, deadline);
      assert rel == [k] + rest;
      ReleaseAt(times[1..], clock, k + 2, deadline, i - 1);
      assert rel[i] == rest[i - 1] && times[i] == times[1..][i - 1];
      if i > 1 {
        assert rel[i - 1] == rest[i - 2];
      }
    }
  }

  /** The release readings chosen for a schedule: the reading that releases write i has
      reached times[i], no reading between the previous write's recording reading and it had,
      and the release readings increase with a gap of at least one. Where these readings fall
      among the writes on the bus is stated by PlaybackOrder. */
  lemma {:induction false} PlaybackTiming(times: seq<real>, clock: nat -> real, deadline: nat)
    requires Monotone(clock) && Covers(times, clock, deadline)
    ensures var rel := Releases(times, clock, 0, deadline);
      && (forall i :: 0 <= i < |rel| ==> times[i] <= clock(rel[i]))
      && (forall i, j :: 0 < i < |rel| && rel[i - 1] + 2 <= j < rel[i] ==> clock(j) < times[i])
      && (forall i, j :: 0 <= i < j < |rel| ==> rel[i] + 2 <= rel[j])
  {
    var rel := Releases(times, clock, 0, deadline);
    forall i | 0 <= i < |rel|
      ensures times[i] <= clock(rel[i])
      ensures i > 0 ==> rel[i - 1] + 2 <= rel[i]
      ensures i > 0 ==> forall j :: rel[i - 1] + 2 <= j < rel[i] ==> clock(j) < times[i]
    {
      ReleaseAt(times, clock, 0, deadline, i);
    }
    forall i, j | 0 <= i < j < |rel|
      ensures rel[i] + 2 <= rel[j]
    {
      IncreasingFrom(rel, i, j);
    }
  }

  /** The monotonicity of the stopwatch at two readings. */
  lemma ClockAt(clock: nat -> real, a: nat, b: nat)
    requires Monotone(clock) && a <= b
    ensures clock(a) <= clock(b)
  {
    assert NotAfter(a, b);
  }

  /** Steps of at least 2 between neighbours add up. */
  lemma {:induction false} IncreasingFrom(rel: seq<nat>, i: nat, j: nat)
    requires forall k :: 0 < k < |rel| ==> rel[k - 1] + 2 <= rel[k]
    requires i < j < |rel|
    ensures rel[i] + 2 <= rel[j]
    decreases j - i
  {
    if i + 1 < j {
      IncreasingFrom(rel, i + 1, j);
    }
  }

  /** Every recorded time is at least the scheduled time of its write, and the recorded
      times are nondecreasing. */
  lemma RecordedBounds(times: seq<real>, clock: nat -> real, deadline: nat)
    requires Monotone(clock) && Covers(times, clock, deadline)
    ensures var recorded := RecordedTimes(times, clock, deadline);
      && (forall i :: 0 <= i < |times| ==> times[i] <= recorded[i])
      && (forall i, j :: 0 <= i <= j < |times| ==> recorded[i] <= recorded[j])
  {
    RecordedAfterSchedule(times, clock, deadline);
    RecordedNondecreasing(times, clock, deadline);
  }

  /** A recording reading follows a reading that reached the scheduled time. */
  lemma RecordedAfterSchedule(times: seq<real>, clock: nat -> real, deadline: nat)
    requires Monotone(clock) && Covers(times, clock, deadline)
    ensures var recorded := RecordedTimes(times, clock, deadline);
      forall i :: 0 <= i < |times| ==> times[i] <= recorded[i]
  {
    var rel := Releases(times, clock, 0, deadline);
    var recorded := RecordedTimes(times, clock, deadline);
    forall i | 0 <= i < |times|
      ensures times[i] <= recorded[i]
    {
      ReleaseAt(times, clock, 0, deadline, i);
      ClockAt(clock, rel[i], rel[i] + 1);
    }
  }

  /** Later writes are released by later readings, so their recording readings are later. */
  lemma RecordedNondecreasing(times: seq<real>, clock: nat -> real, deadline: nat)
    requires Monotone(clock) && Covers(times, clock, deadline)
    ensures var recorded := RecordedTimes(times, clock, deadline);
      forall i, j :: 0 <= i <= j < |times| ==> recorded[i] <= recorded[j]
  {
    var rel := Releases(times, clock, 0, deadline);
    var recorded := RecordedTimes(times, clock, deadline);
    forall k | 0 < k < |rel|
      ensures rel[k - 1] + 2 <= rel[k]
    {
      ReleaseAt(times, clock, 0, deadline, k);
    }
    forall i, j | 0 <= i < j < |times|
      ensures recorded[i] <= recorded[j]
    {
      IncreasingFrom(rel, i, j);
      ClockAt(clock, rel[i] + 1, rel[j] + 1);
    }
  }

  /** A write's block holds that write and no read. */
  lemma {:induction false} OfBlock(clock: nat -> real, s: nat, r: nat, x: int)
    ensures WritesOf(Block(clock, s, r, x)) == [RegWrite(Register.TargetInput, x, I32)]
    ensures ReadsOf(Block(clock, s, r, x)) == []
  {
    var waits := Readings(clock, s, r);
    var w := RegWrite(Register.TargetInput, x, I32);
    OfReadings(clock, s, r);
    OfSnoc(waits, Elapsed(clock(r)));
    OfSnoc(waits + [Elapsed(clock(r))], Wrote(w));
    OfSnoc(waits + [Elapsed(clock(r))] + [Wrote(w)], Elapsed(clock(r + 1)));
    assert waits + [Elapsed(clock(r))] + [Wrote(w)] + [Elapsed(clock(r + 1))] == Block(clock, s, r, x);
  }

  /** A playback's timeline holds its target writes in order and no read. */
  lemma {:induction false} OfPlayEvents(ticks: seq<int>, clock: nat -> real, rel: seq<nat>, n: nat)
    requires n <= |rel| && n <= |ticks|
    ensures WritesOf(PlayEvents(ticks, clock, rel, n)) == TargetWrites(ticks[..n])
    ensures ReadsOf(PlayEvents(ticks, clock, rel, n)) == []
    decreases n
  {
    if n > 0 {
      var front := PlayEvents(ticks, clock, rel, n - 1);
      var block := Block(clock, BlockStart(rel, n - 1), rel[n - 1], ticks[n - 1]);
      var w := RegWrite(Register.TargetInput, ticks[n - 1], I32);
      assert PlayEvents(ticks, clock, rel, n) == front + block;
      OfAppend(front, block);
      OfPlayEvents(ticks, clock, rel, n - 1);
      OfBlock(clock, BlockStart(rel, n - 1), rel[n - 1], ticks[n - 1]);
      var wf, wb := WritesOf(front), WritesOf(block);
      assert wf == TargetWrites(ticks[..n - 1]);
      assert wb == [w];
      TargetWritesTake(ticks, n);
      assert wf + wb == TargetWrites(ticks[..n]);
    }
  }

  /** Stopwatch readings hold no write and no read. */
  lemma {:induction false} OfReadings(clock: nat -> real, a: nat, b: nat)
    ensures WritesOf(Readings(clock, a, b)) == [] && ReadsOf(Readings(clock, a, b)) == []
    decreases b
  {
    if a < b {
      OfReadings(clock, a, b - 1);
      ReadingsSnoc(clock, a, b - 1);
      OfSnoc(Readings(clock, a, b - 1), Elapsed(clock(b - 1)));
    }
  }

  /** The layout of a write's block: the readings it waited through, in order, then the
      releasing reading, the write and the recording reading. */
  lemma {:induction false} BlockLayout(clock: nat -> real, s: nat, r: nat, x: int)
    requires s <= r
    ensures var b := Block(clock, s, r, x);
      && |b| == r - s + 3
      && (forall k :: 0 <= k < r - s ==> b[k] == Elapsed(clock(s + k)))
      && b[r - s] == Elapsed(clock(r))
      && b[r - s + 1] == Wrote(RegWrite(Register.TargetInput, x, I32))
      && b[r - s + 2] == Elapsed(clock(r + 1))
  {
    ReadingsAt(clock, s, r);
  }

  /** The k-th event of `Readings(clock, a, b)` is the reading a + k. */
  lemma {:induction false} ReadingsAt(clock: nat -> real, a: nat, b: nat)
    ensures forall k :: 0 <= k < |Readings(clock, a, b)| ==> Readings(clock, a, b)[k] == Elapsed(clock(a + k))
    decreases b
  {
    if a < b {
      ReadingsAt(clock, a, b - 1);
    }
  }

  /** The timeline of the first `n` writes begins with that of the first `i` writes followed
      by the block of write i: later blocks only ever come after it. */
  lemma {:induction false} PlayEventsPrefix(ticks: seq<int>, clock: nat -> real, rel: seq<nat>, i: nat, n: nat)
    requires i < n <= |rel| && n <= |ticks|
    ensures PlayEvents(ticks, clock, rel, i) + Block(clock, BlockStart(rel, i), rel[i], ticks[i])
         <= PlayEvents(ticks, clock, rel, n)
    decreases n
  {
    if i + 1 < n {
      PlayEventsPrefix(ticks, clock, rel, i, n - 1);
    }
  }

  /** Write i of a playback on its timeline: its block follows those of the earlier writes,
      and its releasing reading is the first from BlockStart(rel, i) on that has reached
      times[i]. */
  lemma PlaybackOrderAt(ticks: seq<int>, times: seq<real>, clock: nat -> real, deadline: nat, i: nat)
    requires Monotone(clock) && Covers(times, clock, deadline) && |ticks| == |times| && i < |times|
    ensures var rel := Releases(times, clock, 0, deadline);
      && BlockStart(rel, i) <= rel[i]
      && PlayEvents(ticks, clock, rel, i) + Block(clock, BlockStart(rel, i), rel[i], ticks[i])
         <= PlayEvents(ticks, clock, rel, |rel|)
      && Waited(times[i], clock, BlockStart(rel, i), rel[i])
      && times[i] <= clock(rel[i])
  {
    var rel := Releases(times, clock, 0, deadline);
    ReleaseAt(times, clock, 0, deadline, i);
    PlayEventsPrefix(ticks, clock, rel, i, |rel|);
  }

  /** The timing of a playback, on its timeline. The timeline of write i begins right after
      those of the earlier writes: the readings since the previous write's recording reading,
      none of which has reached times[i]; then the (rel[i] + 1)-th reading, which has; then
      the write itself; then the reading recorded for it. So no target is sent before a
      reading that has reached its time, and the targets go out in schedule order. */
  lemma PlaybackOrder(ticks: seq<int>, times: seq<real>, clock: nat -> real, deadline: nat)
    requires Monotone(clock) && Covers(times, clock, deadline) && |ticks| == |times|
    ensures var rel := Releases(times, clock, 0, deadline);
      forall i :: 0 <= i < |rel| ==>
        && BlockStart(rel, i) <= rel[i]
        && PlayEvents(ticks, clock, rel, i) + Block(clock, BlockStart(rel, i), rel[i], ticks[i])
           <= PlayEvents(ticks, clock, rel, |rel|)
        && Waited(times[i], clock, BlockStart(rel, i), rel[i])
        && times[i] <= clock(rel[i])
  {
    forall i | 0 <= i < |times| {
      PlaybackOrderAt(ticks, times, clock, deadline, i);
    }
  }

  /** The playback loop, continued from any state it reaches, completes the timeline of the
      blocks: the state after the writes released by `rel`, with the stopwatch's next reading
      `c`, has produced the blocks of those writes and the readings since, and the rest of the
      loop adds the remaining blocks. */
  lemma {:induction false} PlayTraceCompletes(ticks: seq<int>, times: seq<real>, clock: nat -> real, deadline: nat,
                                              rel: seq<nat>, c: nat)
    requires Monotone(clock) && Covers(times, clock, deadline) && |ticks| == |times|
    requires Released(times, clock, rel) && Start(rel) <= c
    requires |rel| < |times| ==> Waited(times[|rel|], clock, Start(rel), c)
    requires |rel| == |times| ==> c == Start(rel)
    ensures PlayEvents(ticks, clock, rel, |rel|) + Readings(clock, Start(rel), c)
        + PlayTrace(ticks, times, clock, deadline, |rel|, c)
      == PlayEvents(ticks, clock, Releases(times, clock, 0, deadline), |times|)
    decreases |times| - |rel|, if c <= deadline then deadline - c else 0, 1
  {
    if |rel| == |times| {
      FinishStep(ticks, times, clock, deadline, rel, c);
    } else if times[|rel|] <= clock(c) {
      ReleaseCase(ticks, times, clock, deadline, rel, c);
    } else {
      WaitCase(ticks, times, clock, deadline, rel, c);
    }
  }

  /** `PlayTraceCompletes` for a pass that releases write |rel| at reading `c`. */
  lemma {:induction false} ReleaseCase(ticks: seq<int>, times: seq<real>, clock: nat -> real, deadline: nat,
                                       rel: seq<nat>, c: nat)
    requires Monotone(clock) && Covers(times, clock, deadline) && |ticks| == |times|
    requires Released(times, clock, rel) && Start(rel) <= c && |rel| < |times|
    requires Waited(times[|rel|], clock, Start(rel), c) && times[|rel|] <= clock(c)
    ensures PlayEvents(ticks, clock, rel, |rel|) + Readings(clock, Start(rel), c)
        + PlayTrace(ticks, times, clock, deadline, |rel|, c)
      == PlayEvents(ticks, clock, Releases(times, clock, 0, deadline), |times|)
    decreases |times| - |rel|, if c <= deadline then deadline - c else 0, 0
  {
    ReleasedSnoc(times, clock, rel, c);
    PlayTraceCompletes(ticks, times, clock, deadline, rel + [c], c + 2);
    ReleaseStep(ticks, times, clock, deadline, rel, c,
                PlayEvents(ticks, clock, Releases(times, clock, 0, deadline), |times|));
  }

  /** `PlayTraceCompletes` for a pass whose reading `c` has not reached times[|rel|]. */
  lemma {:induction false} WaitCase(ticks: seq<int>, times: seq<real>, clock: nat -> real, deadline: nat,
                                    rel: seq<nat>, c: nat)
    requires Monotone(clock) && Covers(times, clock, deadline) && |ticks| == |times|
    requires Released(times, clock, rel) && Start(rel) <= c && |rel| < |times|
    requires Waited(times[|rel|], clock, Start(rel), c) && clock(c) < times[|rel|]
    ensures PlayEvents(ticks, clock, rel, |rel|) + Readings(clock, Start(rel), c)
        + PlayTrace(ticks, times, clock, deadline, |rel|, c)
      == PlayEvents(ticks, clock, Releases(times, clock, 0, deadline), |times|)
    decreases |times| - |rel|, if c <= deadline then deadline - c else 0, 0
  {
    Pending(clock, times[|rel|], c, deadline);
    WaitedSnoc(times[|rel|], clock, Start(rel), c);
    PlayTraceCompletes(ticks, times, clock, deadline, rel, c + 1);
    WaitStep(ticks, times, clock, deadline, rel, c,
             PlayEvents(ticks, clock, Releases(times, clock, 0, deadline), |times|));
  }

  /** Once every write is released the loop adds nothing, and the releases are those
      `Releases` computes. */
  lemma {:induction false} FinishStep(ticks: seq<int>, times: seq<real>, clock: nat -> real, deadline: nat,
                                      rel: seq<nat>, c: nat)
    requires Monotone(clock) && Covers(times, clock, deadline) && |ticks| == |times|
    requires Released(times, clock, rel) && |rel| == |times| && c == Start(rel)
    ensures PlayEvents(ticks, clock, rel, |rel|) + Readings(clock, Start(rel), c)
        + PlayTrace(ticks, times, clock, deadline, |rel|, c)
      == PlayEvents(ticks, clock, Releases(times, clock, 0, deadline), |times|)
  {
    var all := Releases(times, clock, 0, deadline);
    ReleasedUnique(times, clock, deadline, rel);
    assert all[..|rel|] == all;
    assert Readings(clock, Start(rel), c) + PlayTrace(ticks, times, clock, deadline, |rel|, c) == [];
    AppendAssoc(PlayEvents(ticks, clock, rel, |rel|), Readings(clock, Start(rel), c),
                PlayTrace(ticks, times, clock, deadline, |rel|, c));
  }

  /** A pass of the loop that releases write |rel| at reading `c` adds that write's block. */
  lemma {:induction false} ReleaseStep(ticks: seq<int>, times: seq<real>, clock: nat -> real, deadline: nat,
                    rel: seq<nat>, c: nat, full: seq<Event>)
    requires Monotone(clock) && Covers(times, clock, deadline) && |ticks| == |times|
    requires |rel| < |times| && Start(rel) <= c && times[|rel|] <= clock(c)
    requires PlayEvents(ticks, clock, rel + [c], |rel| + 1) + Readings(clock, c + 2, c + 2)
        + PlayTrace(ticks, times, clock, deadline, |rel| + 1, c + 2) == full
    ensures PlayEvents(ticks, clock, rel, |rel|) + Readings(clock, Start(rel), c)
        + PlayTrace(ticks, times, clock, deadline, |rel|, c) == full
  {
    var i := |rel|;
    var last := [Elapsed(clock(c)), Wrote(RegWrite(Register.TargetInput, ticks[i], I32)), Elapsed(clock(c + 1))];
    var rest := PlayTrace(ticks, times, clock, deadline, i + 1, c + 2);
    assert PlayTrace(ticks, times, clock, deadline, i, c) == last + rest;
    assert Start(rel + [c]) == c + 2;
    PlayEventsRelease(ticks, clock, rel, c);
    AppendAssoc(PlayEvents(ticks, clock, rel, i) + Readings(clock, Start(rel), c), last, rest);
  }

  /** A pass of the loop that does not release write |rel| adds its reading to the wait. */
  lemma {:induction false} WaitStep(ticks: seq<int>, times: seq<real>, clock: nat -> real, deadline: nat,
                 rel: seq<nat>, c: nat, full: seq<Event>)
    requires Monotone(clock) && Covers(times, clock, deadline) && |ticks| == |times|
    requires |rel| < |times| && Start(rel) <= c && clock(c) < times[|rel|]
    requires PlayEvents(ticks, clock, rel, |rel|) + Readings(clock, Start(rel), c + 1)
        + PlayTrace(ticks, times, clock, deadline, |rel|, c + 1) == full
    ensures PlayEvents(ticks, clock, rel, |rel|) + Readings(clock, Start(rel), c)
        + PlayTrace(ticks, times, clock, deadline, |rel|, c) == full
  {
    var i := |rel|;
    var done := PlayEvents(ticks, clock, rel, i);
    var waits := Readings(clock, Start(rel), c);
    var x := Elapsed(clock(c));
    var rest := PlayTrace(ticks, times, clock, deadline, i, c + 1);
    assert PlayTrace(ticks, times, clock, deadline, i, c) == [x] + rest;
    ReadingsSnoc(clock, Start(rel), c);
    AppendAssoc(done, waits, [x]);
    AppendAssoc(done + waits, [x], rest);
  }

  /** The playback loop's timeline is the timeline of the blocks, one block per write in
      schedule order, each released by the reading `Releases` computes for it. */
  lemma PlayTraceIsPlayEvents(ticks: seq<int>, times: seq<real>, clock: nat -> real, deadline: nat)
    requires Monotone(clock) && Covers(times, clock, deadline) && |ticks| == |times|
    ensures PlayTrace(ticks, times, clock, deadline, 0, 0)
         == PlayEvents(ticks, clock, Releases(times, clock, 0, deadline), |times|)
  {
    PlayTraceCompletes(ticks, times, clock, deadline, [], 0);
    assert PlayEvents(ticks, clock, [], 0) + Readings(clock, 0, 0) == [];
  }

  /** When the loop has released every write, its releases are those `Releases` computes and
      the timeline it left is the start followed by the playback's events. */
  lemma PlaybackFinished(ticks: seq<int>, times: seq<real>, clock: nat -> real, deadline: nat,
                         rel: seq<nat>, c: nat, e: seq<Event>, start: seq<Event>)
    requires Monotone(clock) && Covers(times, clock, deadline) && |ticks| == |times|
    requires Released(times, clock, rel) && |rel| == |times|
    requires e + PlayTrace(ticks, times, clock, deadline, |times|, c) == start + PlayTrace(ticks, times, clock, deadline, 0, 0)
    ensures rel == Releases(times, clock, 0, deadline)
    ensures e == start + PlayEvents(ticks, clock, rel, |rel|)
  {
    ReleasedUnique(times, clock, deadline, rel);
    assert Releases(times, clock, 0, deadline)[..|rel|] == Releases(times, clock, 0, deadline);
    PlayTraceIsPlayEvents(ticks, times, clock, deadline);
    assert e + [] == e;
  }
}
