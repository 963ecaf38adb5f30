/** The homing search (`goToHome`): read the linear sensor, refuse a reading outside the
    travel range, then nudge the commanded position by a coarse or fine step until a reading
    lies strictly inside the home window. */
module Homing {
  import opened Hardware
  import opened Units
  import opened Transport
  import Register
  import Mode

  /** The range check before any motion; a reading outside it aborts the search. */
  predicate InTravel(pos: real)
  {
    !(pos > MaxPosition || pos < MinPosition)
  }

  /** The search stops on a reading strictly inside home +- tolerance. */
  predicate Reached(pos: real)
  {
    pos < HomePosition + HomePosTolerance && pos > HomePosition - HomePosTolerance
  }

  function Abs(x: real): real
  {
    if x < 0.0 then -x else x
  }

  /** Coarse step of 20 ticks more than half a millimetre away from home, fine step of 1 otherwise. */
  function StepSize(pos: real): int
  {
    if Abs(pos - HomePosition) > 0.5 then 20 else 1
  }

  /** One iteration of the search: the commanded target after reading `pos`. */
  function NextTarget(pos: real, target: int): int
  {
    if pos > HomePosition + HomePosTolerance then target + StepSize(pos)
    else if pos < HomePosition - HomePosTolerance then target - StepSize(pos)
    else target
  }

  /** The targets the search writes, one per loop iteration, when the iteration's readings are
      `reply(k)`, `reply(k + 1)`, ... and the commanded target starts at `target`.
      `homeAt` is a reading index inside the home window, so the search ends by then. */
  function SearchTargets(reply: nat -> int, k: nat, target: int, homeAt: nat): (ts: seq<int>)
    requires k <= homeAt && Reached(SensorToMm(reply(homeAt)))
    ensures 1 <= |ts| <= homeAt - k + 1
    decreases homeAt - k
  {
    var pos := SensorToMm(reply(k));
    var next := NextTarget(pos, target);
    if Reached(pos) then [next] else [next] + SearchTargets(reply, k + 1, next, homeAt)
  }

  /** The commanded target after the targets `ts`, starting from `target`. */
  function Last(ts: seq<int>, target: int): int
  {
    if ts == [] then target else ts[|ts| - 1]
  }

  /** Each of `ts` is one step, on reading `reply(k + j)`, from the target before it; the
      first is one step from `target`. */
  ghost predicate Stepped(reply: nat -> int, k: nat, target: int, ts: seq<int>)
  {
    && (|ts| > 0 ==> ts[0] == NextTarget(SensorToMm(reply(k)), target))
    && (forall i, j {:trigger ts[i], ts[j]} :: 0 <= i && j == i + 1 && j < |ts| ==>
          ts[j] == NextTarget(SensorToMm(reply(k + j)), ts[i]))
  }

  /** None of the `n` readings from index `k` on is inside the home window. */
  ghost predicate Unreached(reply: nat -> int, k: nat, n: nat)
  {
    forall r :: k <= r < k + n ==> !Reached(SensorToMm(reply(r)))
  }

  /** `ts` are the targets a search writes when its readings are `reply(k)`, `reply(k + 1)`,
      ... and the commanded target starts at `target`: one target per reading, each one step
      from the one before; the last reading is inside the home window and no earlier one is. */
  ghost predicate IsSearch(reply: nat -> int, k: nat, target: int, ts: seq<int>)
  {
    && |ts| >= 1
    && Reached(SensorToMm(reply(k + |ts| - 1)))
    && Unreached(reply, k, |ts| - 1)
    && Stepped(reply, k, target, ts)
  }

  /** One more step extends a stepped sequence. */
  lemma SteppedExtend(reply: nat -> int, k: nat, target: int, ts: seq<int>)
    requires Stepped(reply, k, target, ts)
    ensures Stepped(reply, k, target, ts + [NextTarget(SensorToMm(reply(k + |ts|)), Last(ts, target))])
  {
    var ts' := ts + [NextTarget(SensorToMm(reply(k + |ts|)), Last(ts, target))];
    forall i, j | 0 <= i && j == i + 1 && j < |ts'|
      ensures ts'[j] == NextTarget(SensorToMm(reply(k + j)), ts'[i])
    {
      assert ts'[i] == ts[i];
      if j < |ts| {
        assert ts'[j] == ts[j];
      }
    }
  }

  /** A stepped sequence starting with `x` is `x` followed by a sequence stepped from `x`
      on the readings one further on, and conversely. */
  lemma SteppedTail(reply: nat -> int, k: nat, target: int, ts: seq<int>)
    requires |ts| > 0
    ensures Stepped(reply, k, target, ts) <==>
      ts[0] == NextTarget(SensorToMm(reply(k)), target) && Stepped(reply, k + 1, ts[0], ts[1..])
  {
    var rest := ts[1..];
    if Stepped(reply, k, target, ts) {
      if |rest| > 0 {
        assert rest[0] == ts[1];
        assert ts[1] == NextTarget(SensorToMm(reply(k + 1)), ts[0]);
      }
      forall i, j | 0 <= i && j == i + 1 && j < |rest|
        ensures rest[j] == NextTarget(SensorToMm(reply(k + 1 + j)), rest[i])
      {
        assert rest[i] == ts[i + 1] && rest[j] == ts[j + 1];
        assert k + 1 + j == k + (j + 1);
      }
    }
    if ts[0] == NextTarget(SensorToMm(reply(k)), target) && Stepped(reply, k + 1, ts[0], rest) {
      forall i, j | 0 <= i && j == i + 1 && j < |ts|
        ensures ts[j] == NextTarget(SensorToMm(reply(k + j)), ts[i])
      {
        assert ts[j] == rest[j - 1];
        if i > 0 {
          assert ts[i] == rest[i - 1];
          assert k + j == k + 1 + (j - 1);
        }
      }
    }
  }

  /** Motor off, speed, position and target zeroed, then position-ramp mode. */
  function HomingPrologue(): seq<RegWrite>
  {
    [ RegWrite(Register.Mode, Mode.MotorOff, I16), RegWrite(Register.Speed, 0, I32),
      RegWrite(Register.Position, 0, I32), RegWrite(Register.TargetInput, 0, I32),
      RegWrite(Register.Mode, Mode.PositionRamp, I16) ]
  }

  /** Motor off, then the home position becomes position 0 and target 0. */
  function HomingEpilogue(): seq<RegWrite>
  {
    [ RegWrite(Register.Mode, Mode.MotorOff, I16), RegWrite(Register.Position, 0, I32),
      RegWrite(Register.TargetInput, 0, I32) ]
  }

  /** Every write of a search that writes the targets `targets`. */
  function HomingWrites(targets: seq<int>): seq<RegWrite>
  {
    HomingPrologue() + Writes(Register.TargetInput, targets, I32) + HomingEpilogue()
  }

  /** `n` one-word unsigned reads of the linear position sensor. */
  function SensorReads(n: nat): (r: seq<RegRead>)
    ensures |r| == n
    ensures forall i :: 0 <= i < n ==> r[i] == RegRead(Register.LinearPosition, 1, false)
  {
    seq(n, i => RegRead(Register.LinearPosition, 1, false))
  }

  /** Reads made in two runs are the reads made in one. */
  lemma SensorReadsAppend(m: nat, n: nat)
    ensures SensorReads(m) + SensorReads(n) == SensorReads(m + n)
  {
  }

  /** The search's writes, once appended piece by piece to a trace, are its `HomingWrites`. */
  lemma HomingWritesAppend(w: seq<RegWrite>, targets: seq<int>)
    ensures w + HomingPrologue() + Writes(Register.TargetInput, targets, I32) + HomingEpilogue()
         == w + HomingWrites(targets)
  {
  }

  /** The read of the linear position sensor the search makes before each step. */
  function SensorRead(): RegRead
  {
    RegRead(Register.LinearPosition, 1, false)
  }

  /** The timeline of a search that writes `ts`: each target write right after the sensor read
      it is computed from. */
  function SearchEvents(ts: seq<int>): (e: seq<Event>)
    ensures |e| == 2 * |ts|
    decreases |ts|
  {
    if ts == [] then []
    else SearchEvents(ts[..|ts| - 1]) + [Fetched(SensorRead()), Wrote(RegWrite(Register.TargetInput, ts[|ts| - 1], I32))]
  }

  /** The timeline of a homing that passes the range check and searches with `targets`: the
      range-check read, the reset writes, the search, then the closing writes. */
  function HomingEvents(targets: seq<int>): seq<Event>
  {
    HomingHead() + SearchEvents(targets) + WriteEvents(HomingEpilogue())
  }

  /** The range-check read and the reset writes that open a homing's timeline. */
  function HomingHead(): seq<Event>
  {
    [Fetched(SensorRead())] + WriteEvents(HomingPrologue())
  }

  /** One more step of the search appends its read and its write. */
  lemma SearchEventsSnoc(ts: seq<int>, x: int)
    ensures SearchEvents(ts + [x]) == SearchEvents(ts) + [Fetched(SensorRead()), Wrote(RegWrite(Register.TargetInput, x, I32))]
  {
    assert (ts + [x])[..|ts|] == ts;
  }

  /** One more step of the search, appended to a timeline that ends with the search so far,
      extends the search's timeline. */
  lemma SearchEventsExtend(e: seq<Event>, ts: seq<int>, x: int)
    ensures e + SearchEvents(ts) + [Fetched(SensorRead()), Wrote(RegWrite(Register.TargetInput, x, I32))]
         == e + SearchEvents(ts + [x])
  {
    SearchEventsSnoc(ts, x);
    AppendAssoc(e, SearchEvents(ts), [Fetched(SensorRead()), Wrote(RegWrite(Register.TargetInput, x, I32))]);
  }

  /** The homing's timeline pieces, appended one at a time to a timeline, are its
      `HomingEvents`. */
  lemma HomingEventsAppend(e: seq<Event>, targets: seq<int>)
    ensures e + [Fetched(SensorRead())] + WriteEvents(HomingPrologue()) + SearchEvents(targets) + WriteEvents(HomingEpilogue())
         == e + HomingEvents(targets)
  {
    AppendAssoc(e, [Fetched(SensorRead())], WriteEvents(HomingPrologue()));
    AppendAssoc(e, HomingHead(), SearchEvents(targets));
    AppendAssoc(e, HomingHead() + SearchEvents(targets), WriteEvents(HomingEpilogue()));
  }

  // ---- properties ----

  /** The step moves the target up exactly when the piston reads beyond home + tolerance and down
      exactly when it reads below home - tolerance; it keeps the target exactly on readings within
      [9.99, 10.01], in particular on every reading that ends the search; a moving step is 20
      ticks exactly when the reading is more than 0.5 mm from home, else 1. */
  lemma StepDirection(pos: real, target: int)
    ensures NextTarget(pos, target) > target <==> pos > 10.01
    ensures NextTarget(pos, target) < target <==> pos < 9.99
    ensures NextTarget(pos, target) == target <==> 9.99 <= pos <= 10.01
    ensures Reached(pos) ==> NextTarget(pos, target) == target
    ensures NextTarget(pos, target) != target ==>
      (Abs((NextTarget(pos, target) - target) as real) == 20.0 <==> Abs(pos - 10.0) > 0.5) &&
      (Abs((NextTarget(pos, target) - target) as real) == 1.0 <==> Abs(pos - 10.0) <= 0.5)
  {
  }

  /** No integer sensor word reads exactly 9.99 mm or 10.01 mm, so every iteration of the search
      either ends it or moves the target: the search never idles on a window edge. */
  lemma NoDeadBand(raw: int, target: int)
    ensures SensorToMm(raw) != 9.99 && SensorToMm(raw) != 10.01
    ensures Reached(SensorToMm(raw)) || NextTarget(SensorToMm(raw), target) != target
  {
    assert SensorToMm(raw) * 654.2 == raw as real;
  }

  /** The targets `SearchTargets` computes are a search: one target per reading, each one
      step from the previous target; every reading but the last is outside the home window and
      the last one is inside it. */
  lemma {:induction false} SearchShape(reply: nat -> int, k: nat, target: int, homeAt: nat)
    requires k <= homeAt && Reached(SensorToMm(reply(homeAt)))
    ensures var ts := SearchTargets(reply, k, target, homeAt);
      IsSearch(reply, k, target, ts)
    decreases homeAt - k
  {
    var pos := SensorToMm(reply(k));
    var next := NextTarget(pos, target);
    var ts := SearchTargets(reply, k, target, homeAt);
    if Reached(pos) {
      assert ts == [next];
      assert Stepped(reply, k, target, ts);
    } else {
      var rest := SearchTargets(reply, k + 1, next, homeAt);
      SearchShape(reply, k + 1, next, homeAt);
      assert ts == [next] + rest;
      SearchCons(reply, k, target, rest);
    }
  }

  /** A reading outside the home window followed by a search from the step it makes is a
      search. */
  lemma SearchCons(reply: nat -> int, k: nat, target: int, rest: seq<int>)
    requires !Reached(SensorToMm(reply(k)))
    requires IsSearch(reply, k + 1, NextTarget(SensorToMm(reply(k)), target), rest)
    ensures IsSearch(reply, k, target, [NextTarget(SensorToMm(reply(k)), target)] + rest)
  {
    var ts := [NextTarget(SensorToMm(reply(k)), target)] + rest;
    assert ts[1..] == rest;
    assert Stepped(reply, k + 1, ts[0], ts[1..]);
    SteppedTail(reply, k, target, ts);
    UnreachedCons(reply, k, |rest| - 1);
    assert k + |ts| - 1 == k + 1 + |rest| - 1;
  }

  /** One more reading outside the home window extends an unreached stretch. */
  lemma UnreachedSnoc(reply: nat -> int, k: nat, n: nat)
    requires Unreached(reply, k, n) && !Reached(SensorToMm(reply(k + n)))
    ensures Unreached(reply, k, n + 1)
  {
  }

  /** A reading outside the home window before an unreached stretch extends it. */
  lemma UnreachedCons(reply: nat -> int, k: nat, n: nat)
    requires !Reached(SensorToMm(reply(k))) && Unreached(reply, k + 1, n)
    ensures Unreached(reply, k, n + 1)
  {
  }

  /** The last write of a search repeats the target before it: the reading that ends the
      search does not move the target. */
  lemma FinalWriteRepeats(reply: nat -> int, k: nat, target: int, ts: seq<int>)
    requires IsSearch(reply, k, target, ts)
    ensures ts[|ts| - 1] == Last(ts[..|ts| - 1], target)
  {
    var n := |ts| - 1;
    StepDirection(SensorToMm(reply(k + n)), Last(ts[..n], target));
    if n > 0 {
      assert ts[n] == NextTarget(SensorToMm(reply(k + n)), ts[n - 1]);
    }
  }

  /** The search's targets are determined by its readings: a sequence is a search exactly when
      it is the one `SearchTargets` computes. */
  lemma {:induction false} SearchCharacterised(reply: nat -> int, k: nat, target: int, homeAt: nat, ts: seq<int>)
    requires k <= homeAt && Reached(SensorToMm(reply(homeAt)))
    ensures IsSearch(reply, k, target, ts) <==> ts == SearchTargets(reply, k, target, homeAt)
    decreases homeAt - k
  {
    SearchShape(reply, k, target, homeAt);
    if IsSearch(reply, k, target, ts) {
      var pos := SensorToMm(reply(k));
      var next := NextTarget(pos, target);
      assert ts[0] == next;
      assert Stepped(reply, k + 1, ts[0], ts[1..]);
      SteppedTail(reply, k, target, ts);
      assert Stepped(reply, k, target, ts);
      if |ts| > 1 {
        assert !Reached(pos);
        assert homeAt != k;
        var rest := ts[1..];
        assert IsSearch(reply, k + 1, next, rest) by {
          assert k + 1 + |rest| - 1 == k + |ts| - 1;
        }
        SearchCharacterised(reply, k + 1, next, homeAt, rest);
        assert ts == [ts[0]] + rest;
      }
    }
  }

  /** In a search's timeline, read j and write j alternate: the j-th read is followed by the
      j-th write, which is followed by read j + 1; the first 2j events are the timeline of the
      first j steps. */
  lemma SearchEventsOrder(ts: seq<int>)
    ensures var e := SearchEvents(ts);
      forall j :: 0 <= j < |ts| ==>
        && e[2 * j] == Fetched(SensorRead())
        && e[2 * j + 1] == Wrote(RegWrite(Register.TargetInput, ts[j], I32))
        && e[..2 * j] == SearchEvents(ts[..j])
  {
    forall j | 0 <= j < |ts|
      ensures SearchEvents(ts)[2 * j] == Fetched(SensorRead())
      ensures SearchEvents(ts)[2 * j + 1] == Wrote(RegWrite(Register.TargetInput, ts[j], I32))
      ensures SearchEvents(ts)[..2 * j] == SearchEvents(ts[..j])
    {
      SearchEventsAt(ts, j);
      SearchEventsPrefix(ts, j);
    }
  }

  /** Step j of a search reads the sensor at event 2j and writes its target at event 2j + 1. */
  lemma {:induction false} SearchEventsAt(ts: seq<int>, j: nat)
    requires j < |ts|
    ensures SearchEvents(ts)[2 * j] == Fetched(SensorRead())
    ensures SearchEvents(ts)[2 * j + 1] == Wrote(RegWrite(Register.TargetInput, ts[j], I32))
    decreases |ts|
  {
    var n := |ts| - 1;
    if j < n {
      SearchEventsAt(ts[..n], j);
      assert ts[..n][j] == ts[j];
    }
  }

  /** The first 2j events of a search's timeline are the timeline of its first j steps. */
  lemma {:induction false} SearchEventsPrefix(ts: seq<int>, j: nat)
    requires j <= |ts|
    ensures SearchEvents(ts)[..2 * j] == SearchEvents(ts[..j])
    decreases |ts|
  {
    if j == |ts| {
      assert ts[..j] == ts;
    } else {
      var n := |ts| - 1;
      SearchEventsPrefix(ts[..n], j);
      assert ts[..n][..j] == ts[..j];
    }
  }

  /** The writes of a search's timeline are its target writes, its reads one sensor read per
      target. */
  lemma {:induction false} OfSearchEvents(ts: seq<int>)
    ensures WritesOf(SearchEvents(ts)) == Writes(Register.TargetInput, ts, I32)
    ensures ReadsOf(SearchEvents(ts)) == SensorReads(|ts|)
    decreases |ts|
  {
    if ts != [] {
      var n := |ts| - 1;
      var front := SearchEvents(ts[..n]);
      OfSearchEvents(ts[..n]);
      OfSnoc(front, Fetched(SensorRead()));
      OfSnoc(front + [Fetched(SensorRead())], Wrote(RegWrite(Register.TargetInput, ts[n], I32)));
      assert SearchEvents(ts) == front + [Fetched(SensorRead())] + [Wrote(RegWrite(Register.TargetInput, ts[n], I32))];
      assert ts == ts[..n] + [ts[n]];
      WritesSnoc(Register.TargetInput, ts[..n], ts[n], I32);
    }
  }

  /** The opening of a homing holds one read and the five reset writes. */
  lemma OfHomingHead()
    ensures |HomingHead()| == 6
    ensures ReadsOf(HomingHead()) == [SensorRead()] && WritesOf(HomingHead()) == HomingPrologue()
  {
    OfAppend([Fetched(SensorRead())], WriteEvents(HomingPrologue()));
    OfWriteEvents(HomingPrologue());
    assert [Fetched(SensorRead())] == [] + [Fetched(SensorRead())];
    OfSnoc([], Fetched(SensorRead()));
  }

  /** Event j of a homing's search: sensor read j, which is the (j + 2)-th read of the
      homing, comes right before target write j. */
  lemma HomingEventsAt(targets: seq<int>, j: nat)
    requires j < |targets|
    ensures var e := HomingEvents(targets);
      && e[6 + 2 * j] == Fetched(SensorRead())
      && |ReadsOf(e[..6 + 2 * j])| == j + 1
      && e[7 + 2 * j] == Wrote(RegWrite(Register.TargetInput, targets[j], I32))
  {
    HomingSearchAt(targets, j);
    HomingReadsBefore(targets, j);
  }

  /** Events 6 + 2j and 7 + 2j of a homing are events 2j and 2j + 1 of its search. */
  lemma HomingSearchAt(targets: seq<int>, j: nat)
    requires j < |targets|
    ensures HomingEvents(targets)[6 + 2 * j] == Fetched(SensorRead())
    ensures HomingEvents(targets)[7 + 2 * j] == Wrote(RegWrite(Register.TargetInput, targets[j], I32))
  {
    var search := SearchEvents(targets);
    HeadLength();
    SearchEventsAt(targets, j);
    assert (HomingHead() + search)[6 + 2 * j] == search[2 * j];
    assert (HomingHead() + search)[7 + 2 * j] == search[2 * j + 1];
  }

  /** Before read j of the search, a homing has read the sensor j + 1 times. */
  lemma HomingReadsBefore(targets: seq<int>, j: nat)
    requires j < |targets|
    ensures |ReadsOf(HomingEvents(targets)[..6 + 2 * j])| == j + 1
  {
    var head, search := HomingHead(), SearchEvents(targets);
    OfHomingHead();
    SearchEventsPrefix(targets, j);
    assert HomingEvents(targets)[..6 + 2 * j] == head + SearchEvents(targets[..j]) by {
      assert HomingEvents(targets)[..6 + 2 * j] == (head + search)[..6 + 2 * j];
      assert (head + search)[..6 + 2 * j] == head + search[..2 * j];
    }
    OfAppend(head, SearchEvents(targets[..j]));
    OfSearchEvents(targets[..j]);
  }

  /** A homing's timeline opens with six events. */
  lemma HeadLength()
    ensures |HomingHead()| == 6
  {
    OfWriteEvents(HomingPrologue());
  }

  /** Step j of a search computes its target from the j-th reading and the previous target. */
  lemma StepFrom(reply: nat -> int, k: nat, targets: seq<int>, j: nat)
    requires Stepped(reply, k, 0, targets) && j < |targets|
    ensures targets[j] == NextTarget(SensorToMm(reply(k + j)), Last(targets[..j], 0))
  {
    if j > 0 {
      assert targets[j] == NextTarget(SensorToMm(reply(k + j)), targets[j - 1]);
    }
  }

  /** The order of a homing (`goToHome`): the range-check read comes first and the five reset
      writes after it; then, for each step j, the sensor read that is the (j + 2)-th read of
      the homing comes right before target write j, whose value is computed from that read's
      reply and the previous target; the three closing writes come last. The timeline's writes
      and reads are the homing's write and read traces. */
  lemma HomingOrder(reply: nat -> int, r0: nat, targets: seq<int>)
    requires IsSearch(reply, r0 + 1, 0, targets)
    ensures var e := HomingEvents(targets);
      && |e| == 9 + 2 * |targets|
      && e[0] == Fetched(SensorRead())
      && e[1..6] == WriteEvents(HomingPrologue())
      && (forall j :: 0 <= j < |targets| ==>
            && e[6 + 2 * j] == Fetched(SensorRead())
            && |ReadsOf(e[..6 + 2 * j])| == j + 1
            && e[7 + 2 * j] == Wrote(RegWrite(Register.TargetInput, targets[j], I32))
            && targets[j] == NextTarget(SensorToMm(reply(r0 + 1 + j)), Last(targets[..j], 0)))
      && e[6 + 2 * |targets|..] == WriteEvents(HomingEpilogue())
      && WritesOf(e) == HomingWrites(targets)
      && ReadsOf(e) == SensorReads(|targets| + 1)
  {
    HomingLayout(targets);
    OfHomingEvents(targets);
    forall j | 0 <= j < |targets|
      ensures HomingEvents(targets)[6 + 2 * j] == Fetched(SensorRead())
      ensures |ReadsOf(HomingEvents(targets)[..6 + 2 * j])| == j + 1
      ensures HomingEvents(targets)[7 + 2 * j] == Wrote(RegWrite(Register.TargetInput, targets[j], I32))
      ensures targets[j] == NextTarget(SensorToMm(reply(r0 + 1 + j)), Last(targets[..j], 0))
    {
      HomingEventsAt(targets, j);
      StepFrom(reply, r0 + 1, targets, j);
    }
  }

  /** A homing's timeline is the range-check read, the five reset writes, two events per
      search step and the three closing writes. */
  lemma HomingLayout(targets: seq<int>)
    ensures var e := HomingEvents(targets);
      && |e| == 9 + 2 * |targets|
      && e[0] == Fetched(SensorRead())
      && e[1..6] == WriteEvents(HomingPrologue())
      && e[6 + 2 * |targets|..] == WriteEvents(HomingEpilogue())
  {
    var head, search, tail := HomingHead(), SearchEvents(targets), WriteEvents(HomingEpilogue());
    HeadLength();
    OfWriteEvents(HomingEpilogue());
    assert HomingEvents(targets)[1..6] == head[1..6];
    assert HomingEvents(targets)[6 + 2 * |targets|..] == tail;
  }

  /** The writes of a homing's timeline are its write trace, its reads one sensor read per
      search step and one for the range check. */
  lemma OfHomingEvents(targets: seq<int>)
    ensures WritesOf(HomingEvents(targets)) == HomingWrites(targets)
    ensures ReadsOf(HomingEvents(targets)) == SensorReads(|targets| + 1)
  {
    var head, search, tail := HomingHead(), SearchEvents(targets), WriteEvents(HomingEpilogue());
    OfHomingHead();
    OfAppend(head, search);
    OfAppend(head + search, tail);
    OfSearchEvents(targets);
    OfWriteEvents(HomingEpilogue());
    SensorReadsAppend(1, |targets|);
  }
}
