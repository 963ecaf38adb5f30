/** The register transport the controller talks through (the C# `ModbusCommunication`, whose
    framing and serial I/O are not part of this model). A write is recorded in an append-only
    trace together with the C# type of the value at the call site, which selects the register
    width; a read is recorded in a second trace and answered by an oracle. A ghost timeline
    keeps the order in which writes, reads and the controller's stopwatch readings happened. */
module Transport {
  import opened Outcomes

  /** The C# type of the written value: `Int16`/`short`, `Int32`/`int`, or `ushort`. */
  datatype Width = I16 | I32 | U16

  datatype RegWrite = RegWrite(address: int, value: int, width: Width)

  datatype RegRead = RegRead(address: int, words: int, signed: bool)

  /** One step of the controller's timeline: a register write, a register read, or a reading
      of the controller's stopwatch with the elapsed time it returned. */
  datatype Event = Wrote(w: RegWrite) | Fetched(r: RegRead) | Elapsed(t: real)

  /** Writes of successive values to one register with one width. */
  function Writes(address: int, values: seq<int>, width: Width): (w: seq<RegWrite>)
    ensures |w| == |values|
    ensures forall i :: 0 <= i < |w| ==> w[i] == RegWrite(address, values[i], width)
  {
    seq(|values|, i requires 0 <= i < |values| => RegWrite(address, values[i], width))
  }

  /** Writing one more value appends one more write. */
  lemma WritesSnoc(address: int, values: seq<int>, v: int, width: Width)
    ensures Writes(address, values + [v], width) == Writes(address, values, width) + [RegWrite(address, v, width)]
  {
  }

  /** Appending two pieces one after the other appends their concatenation. */
  lemma AppendAssoc<T>(t: seq<T>, a: seq<T>, b: seq<T>)
    ensures t + a + b == t + (a + b)
  {
  }

  /** The value a trace leaves in a register: the last value written to that address. */
  function LastValueAt(w: seq<RegWrite>, address: int): (r: Option<int>)
    ensures r.None? <==> forall i :: 0 <= i < |w| ==> w[i].address != address
    decreases |w|
  {
    if w == [] then None
    else if w[|w| - 1].address == address then Some(w[|w| - 1].value)
    else LastValueAt(w[..|w| - 1], address)
  }

  /** Appending writes that touch the address decides its value; appending writes that do not
      leave it as it was. */
  lemma {:induction false} LastValueAfter(w: seq<RegWrite>, tail: seq<RegWrite>, address: int)
    ensures LastValueAt(w + tail, address) ==
      if LastValueAt(tail, address).Some? then LastValueAt(tail, address) else LastValueAt(w, address)
    decreases |tail|
  {
    if tail != [] {
      var n := |tail| - 1;
      assert (w + tail)[..|w + tail| - 1] == w + tail[..n];
      if tail[n].address != address {
        LastValueAfter(w, tail[..n], address);
      }
    } else {
      assert w + tail == w;
    }
  }

  /** A run of writes, as timeline events. */
  function WriteEvents(w: seq<RegWrite>): (e: seq<Event>)
    ensures |e| == |w| && forall i :: 0 <= i < |w| ==> e[i] == Wrote(w[i])
  {
    seq(|w|, i requires 0 <= i < |w| => Wrote(w[i]))
  }

  /** A run of reads, as timeline events. */
  function ReadEvents(r: seq<RegRead>): (e: seq<Event>)
    ensures |e| == |r| && forall i :: 0 <= i < |r| ==> e[i] == Fetched(r[i])
  {
    seq(|r|, i requires 0 <= i < |r| => Fetched(r[i]))
  }

  /** Runs of writes that follow each other are one run. */
  lemma WriteEventsAppend(a: seq<RegWrite>, b: seq<RegWrite>)
    ensures WriteEvents(a + b) == WriteEvents(a) + WriteEvents(b)
  {
  }

  /** Runs of reads that follow each other are one run. */
  lemma ReadEventsAppend(a: seq<RegRead>, b: seq<RegRead>)
    ensures ReadEvents(a + b) == ReadEvents(a) + ReadEvents(b)
  {
  }

  /** The writes of a timeline, in order. */
  function WritesOf(e: seq<Event>): seq<RegWrite>
    decreases |e|
  {
    if e == [] then []
    else WritesOf(e[..|e| - 1]) + (if e[|e| - 1].Wrote? then [e[|e| - 1].w] else [])
  }

  /** The reads of a timeline, in order. */
  function ReadsOf(e: seq<Event>): seq<RegRead>
    decreases |e|
  {
    if e == [] then []
    else ReadsOf(e[..|e| - 1]) + (if e[|e| - 1].Fetched? then [e[|e| - 1].r] else [])
  }

  /** One more event adds its write or its read. */
  lemma OfSnoc(e: seq<Event>, x: Event)
    ensures WritesOf(e + [x]) == WritesOf(e) + (if x.Wrote? then [x.w] else [])
    ensures ReadsOf(e + [x]) == ReadsOf(e) + (if x.Fetched? then [x.r] else [])
  {
    assert (e + [x])[..|e|] == e;
  }

  /** Timelines that follow each other: the writes of both follow each other, and so do the
      reads. */
  lemma {:induction false} OfAppend(a: seq<Event>, b: seq<Event>)
    ensures WritesOf(a + b) == WritesOf(a) + WritesOf(b)
    ensures ReadsOf(a + b) == ReadsOf(a) + ReadsOf(b)
    decreases |b|
  {
    if b == [] {
      assert a + b == a;
    } else {
      var n := |b| - 1;
      assert (a + b)[..|a + b| - 1] == a + b[..n];
      OfAppend(a, b[..n]);
    }
  }

  /** A run of writes holds those writes and no read. */
  lemma {:induction false} OfWriteEvents(w: seq<RegWrite>)
    ensures WritesOf(WriteEvents(w)) == w && ReadsOf(WriteEvents(w)) == []
    decreases |w|
  {
    if w != [] {
      var n := |w| - 1;
      assert WriteEvents(w)[..n] == WriteEvents(w[..n]);
      OfWriteEvents(w[..n]);
      assert w == w[..n] + [w[n]];
    }
  }

  /** A run of reads holds those reads and no write. */
  lemma {:induction false} OfReadEvents(r: seq<RegRead>)
    ensures WritesOf(ReadEvents(r)) == [] && ReadsOf(ReadEvents(r)) == r
    decreases |r|
  {
    if r != [] {
      var n := |r| - 1;
      assert ReadEvents(r)[..n] == ReadEvents(r[..n]);
      OfReadEvents(r[..n]);
      assert r == r[..n] + [r[n]];
    }
  }

  /** The device connection: a write trace, a read trace, and the read oracle `reply`, where
      `reply(k)` is the value the k-th read of the connection returns. The ghost `events` is
      the timeline of the writes and reads, interleaved with the stopwatch readings the
      controller takes between them. */
  class Bus {
    var writeLog: seq<RegWrite>
    var readLog: seq<RegRead>
    ghost var events: seq<Event>
    const reply: nat -> int

    constructor (reply: nat -> int)
      ensures writeLog == [] && readLog == [] && events == [] && this.reply == reply
    {
      writeLog := [];
      readLog := [];
      events := [];
      this.reply := reply;
    }

    /** `ModCom.RunModbus(address, value)`, the overload chosen by the value's C# type. */
    method RunModbus(address: int, value: int, width: Width)
      modifies this
      ensures writeLog == old(writeLog) + [RegWrite(address, value, width)]
      ensures readLog == old(readLog)
      ensures events == old(events) + [Wrote(RegWrite(address, value, width))]
    {
      writeLog := writeLog + [RegWrite(address, value, width)];
      events := events + [Wrote(RegWrite(address, value, width))];
    }

    /** `ModCom.ReadModbus(address, words, signed)`. */
    method ReadModbus(address: int, words: int, signed: bool) returns (value: int)
      modifies this
      ensures readLog == old(readLog) + [RegRead(address, words, signed)]
      ensures writeLog == old(writeLog)
      ensures events == old(events) + [Fetched(RegRead(address, words, signed))]
      ensures value == reply(|old(readLog)|)
    {
      value := reply(|readLog|);
      readLog := readLog + [RegRead(address, words, signed)];
      events := events + [Fetched(RegRead(address, words, signed))];
    }

    /** Places a stopwatch reading of the controller, which returned `t`, on the timeline. */
    ghost method NoteElapsed(t: real)
      modifies this
      ensures events == old(events) + [Elapsed(t)]
      ensures writeLog == old(writeLog) && readLog == old(readLog)
    {
      events := events + [Elapsed(t)];
    }
  }
}
