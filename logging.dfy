/** The on-device log: its period and time axis (`createTimeVector`), the channel setup
    (`setupLogging`), and the retrieval and decoding of the four 500-sample channels
    (`saveLoggedValues`). */
module Logging {
  import opened Words
  import opened Hardware
  import opened Units
  import opened Transport
  import opened Outcomes
  import Register

  /** Samples per channel. */
  const LogLength: nat := 500

  /** Regulator cycles per log sample: enough that 500 samples span `maxTime` seconds. */
  function LogFactor(maxTime: real): int
  {
    Ceiling(maxTime * (TimePerSecond / 500.0))
  }

  /** The value for the LogPeriod register, which counts skipped cycles. */
  function RegLogFactor(maxTime: real): int
  {
    LogFactor(maxTime) - 1
  }

  /** The time of sample t, for t < 500: t * logFactor device counts, in seconds. */
  function TimeAxis(logFactor: int): (axis: seq<real>)
    ensures |axis| == LogLength
  {
    seq(LogLength, t => (t * logFactor) as real / TimePerSecond)
  }

  /** The channel setup: four source registers, the period (cast to `short`), then start. */
  function LoggingWrites(regLogFactor: int, position: int): seq<RegWrite>
  {
    [ RegWrite(Register.LogRegister1,
               if position == 1 then Wrap16(Register.Position + 1) else Register.Speed, U16),
      RegWrite(Register.LogRegister2, Wrap16(Register.TargetInput + 1), U16),
      RegWrite(Register.LogRegister3, Register.Pressure, U16),
      RegWrite(Register.LogRegister4, Register.LinearPosition, U16),
      RegWrite(Register.LogPeriod, AsInt16(regLogFactor), I16),
      RegWrite(Register.LogState, 2, I16) ]
  }

  /** The four one-word unsigned reads of sample `j`, channels 1 to 4 in order. */
  function SampleReads(j: int): seq<RegRead>
  {
    [ RegRead(Wrap16(Register.LogRegisterValue1 + j), 1, false),
      RegRead(Wrap16(Register.LogRegisterValue2 + j), 1, false),
      RegRead(Wrap16(Register.LogRegisterValue3 + j), 1, false),
      RegRead(Wrap16(Register.LogRegisterValue4 + j), 1, false) ]
  }

  /** The reads of the first `n` samples of all four channels. */
  function LogReads(n: nat): (r: seq<RegRead>)
    ensures |r| == 4 * n
  {
    seq(4 * n, i requires 0 <= i < 4 * n => SampleReads(i / 4)[i % 4])
  }

  /** The raw words of channel `ch` (0 to 3) when the log retrieval's reads start at read
      index `base`: sample j is the (4j + ch)-th read. */
  function LogChannel(reply: nat -> int, base: nat, ch: nat): (words: seq<int>)
    ensures |words| == LogLength
  {
    seq(LogLength, j requires 0 <= j < LogLength => reply(base + 4 * j + ch))
  }

  /** Every word of `s` reinterpreted as a signed 16-bit value. */
  function Decoded(s: seq<int>): (r: seq<int>)
    ensures |r| == |s|
  {
    seq(|s|, i requires 0 <= i < |s| => AsInt16(s[i]) as int)
  }

  /** One sample's four reads, made one at a time, are that sample's reads. */
  lemma SampleReadsInOrder(t: seq<RegRead>, j: int)
    ensures t + [SampleReads(j)[0]] + [SampleReads(j)[1]] + [SampleReads(j)[2]] + [SampleReads(j)[3]]
         == t + SampleReads(j)
  {
  }

  /** The reads of one more sample, after the first `j` samples' reads, are the reads of the
      first `j + 1` samples. */
  lemma LogReadsStep(t: seq<RegRead>, j: nat)
    ensures t + LogReads(j) + SampleReads(j) == t + LogReads(j + 1)
  {
    assert LogReads(j) + SampleReads(j) == LogReads(j + 1) by {
      forall i | 4 * j <= i < 4 * j + 4
        ensures i / 4 == j && i % 4 == i - 4 * j
      {
      }
    }
  }

  /** On the timeline, the reads of one more sample after the first `j` samples' reads are
      the reads of the first `j + 1` samples. */
  lemma LogEventsStep(e: seq<Event>, j: nat)
    ensures e + ReadEvents(LogReads(j)) + ReadEvents(SampleReads(j)) == e + ReadEvents(LogReads(j + 1))
  {
    LogReadsStep([], j);
    assert [] + LogReads(j) == LogReads(j) && [] + LogReads(j + 1) == LogReads(j + 1);
    ReadEventsAppend(LogReads(j), SampleReads(j));
    AppendAssoc(e, ReadEvents(LogReads(j)), ReadEvents(SampleReads(j)));
  }

  /** A sequence of 500 words whose k-th is read 4k + ch of the retrieval is channel ch. */
  lemma ChannelOfReads(a: seq<int>, reply: nat -> int, base: nat, ch: nat)
    requires |a| == LogLength
    requires forall k :: 0 <= k < LogLength ==> a[k] == reply(base + 4 * k + ch)
    ensures a == LogChannel(reply, base, ch)
  {
  }

  // ---- properties ----

  /** The period is ceil(4 * maxTime) and the register value one less; 500 periods cover the
      run and 500 shorter periods would not; the axis starts at 0, is uniformly spaced, and is
      nondecreasing for a nonnegative run length. */
  lemma TimeAxisCoversRun(maxTime: real)
    ensures var lf := LogFactor(maxTime);
      && RegLogFactor(maxTime) == lf - 1
      && 4.0 * maxTime <= lf as real < 4.0 * maxTime + 1.0
      && 500.0 * lf as real / 2000.0 >= maxTime
      && 500.0 * (lf - 1) as real / 2000.0 < maxTime
      && TimeAxis(lf)[0] == 0.0
      && (forall t :: 0 <= t < LogLength - 1 ==> TimeAxis(lf)[t + 1] - TimeAxis(lf)[t] == lf as real / 2000.0)
      && (maxTime >= 0.0 ==> forall i, j :: 0 <= i <= j < LogLength ==> TimeAxis(lf)[i] <= TimeAxis(lf)[j])
  {
    var lf := LogFactor(maxTime);
    var axis := TimeAxis(lf);
    assert maxTime * (TimePerSecond / 500.0) == 4.0 * maxTime;
    forall t | 0 <= t < LogLength - 1
      ensures axis[t + 1] - axis[t] == lf as real / 2000.0
    {
      assert (t + 1) * lf == t * lf + lf;
    }
    if maxTime >= 0.0 {
      assert lf >= 0;
      forall i, j | 0 <= i <= j < LogLength
        ensures axis[i] <= axis[j]
      {
        assert j * lf - i * lf == (j - i) * lf;
        assert (j - i) * lf >= 0;
      }
    }
  }

  /** Sample t of the axis is the device time counter value t * logFactor in seconds. */
  lemma TimeAxisIsSampleClock(logFactor: int)
    ensures TimeAxis(logFactor) == TimeToSeconds(seq(LogLength, t => t * logFactor))
  {
  }

  /** For a run of up to 8192 s the period fits the 16-bit register and is written unchanged;
      a longer run wraps it (8192.25 s is written as -32768). */
  lemma LogPeriodWidth(maxTime: real)
    ensures 0.0 < maxTime <= 8192.0 ==>
      0 <= RegLogFactor(maxTime) <= 32767 && AsInt16(RegLogFactor(maxTime)) == RegLogFactor(maxTime)
    ensures maxTime == 8192.25 ==> AsInt16(RegLogFactor(maxTime)) == -32768
  {
    TimeAxisCoversRun(maxTime);
    if 0.0 < maxTime <= 8192.0 {
      InRangeUnchanged(RegLogFactor(maxTime));
    }
  }

  /** Channel selection: channel 1 logs register 201 (position, low word) when `position` is 1
      and the speed register 202 otherwise; channels 2 to 4 log 451 (target, low word), 170
      (pressure) and 172 (linear position); then the period, then LogState 2 starts the log. */
  lemma ChannelSelection(regLogFactor: int, position: int)
    ensures LoggingWrites(regLogFactor, position) ==
      [ RegWrite(905, if position == 1 then 201 else 202, U16), RegWrite(906, 451, U16),
        RegWrite(907, 170, U16), RegWrite(908, 172, U16),
        RegWrite(902, AsInt16(regLogFactor), I16), RegWrite(900, 2, I16) ]
    ensures LastValueAt(LoggingWrites(regLogFactor, position), Register.LogState) == Some(2)
  {
  }

  /** Read 4j + ch of the retrieval is sample j of channel ch + 1, at register
      1000 * (ch + 1) + j. */
  lemma LogReadsLayout(n: nat, j: nat, ch: nat)
    requires n <= LogLength && j < n && ch < 4
    ensures LogReads(n)[4 * j + ch] == RegRead(1000 * (ch + 1) + j, 1, false)
  {
    assert (4 * j + ch) / 4 == j && (4 * j + ch) % 4 == ch;
  }

  /** Decoding yields values in [-32768, 32767], keeps values already in range, maps 65535 to
      -1, and decoding twice is decoding once. */
  lemma {:induction false} DecodedRange(s: seq<int>)
    ensures forall i :: 0 <= i < |s| ==> -32768 <= Decoded(s)[i] < 32768
    ensures forall i :: 0 <= i < |s| && -32768 <= s[i] < 32768 ==> Decoded(s)[i] == s[i]
    ensures forall i :: 0 <= i < |s| && s[i] == 65535 ==> Decoded(s)[i] == -1
    ensures Decoded(Decoded(s)) == Decoded(s)
  {
    forall i | 0 <= i < |s|
      ensures -32768 <= s[i] < 32768 ==> Decoded(s)[i] == s[i]
      ensures s[i] == 65535 ==> Decoded(s)[i] == -1
      ensures Decoded(Decoded(s))[i] == Decoded(s)[i]
    {
      DecodeCongruent(AsInt16(s[i]), s[i]);
      if -32768 <= s[i] < 32768 {
        InRangeUnchanged(s[i]);
      }
      if s[i] == 65535 {
        DecodeWord(65535);
      }
    }
  }
}
