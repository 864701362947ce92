/** Reassembly of one fixed-size frame from the capture process's output
    (the read loop of `VideoStreamThread.run`, main.py:71-82). */
module FrameAssembler {
  import opened Bytes

  /** Reads that come back empty are tolerated this many times in a row;
      one more and the assembler gives up on the frame. */
  const MaxEmptyReads: nat := 10

  /** The results the successive `read` calls on the process's output return while one
      frame is being assembled. An empty chunk is a read that returned nothing; reads
      past the end of the trace return nothing too (the stream has ended). */
  type ReadTrace = seq<Chunk>

  /** The result of the k-th read call. */
  function ReadAt(trace: ReadTrace, k: nat): Chunk
  {
    if k < |trace| then trace[k] else []
  }

  /** A log of read results agrees with the trace: the k-th result is the k-th read's. */
  predicate ReadsOf(log: seq<Chunk>, trace: ReadTrace)
  {
    forall k :: 0 <= k < |log| ==> log[k] == ReadAt(trace, k)
  }

  /** A log that agrees with the trace and is no longer than it is a prefix of it. */
  lemma ReadsOfPrefix(log: seq<Chunk>, trace: ReadTrace)
    requires ReadsOf(log, trace) && |log| <= |trace|
    ensures log == trace[..|log|]
  {
  }

  /** The value of the empty-read counter after a run of trace: the number of reads at
      the end of the log that came back empty (a non-empty read resets it). */
  function TrailingEmpty(log: seq<Chunk>): (n: nat)
    ensures n <= |log|
    decreases |log|
  {
    if log == [] || log[|log| - 1] != [] then 0
    else 1 + TrailingEmpty(log[..|log| - 1])
  }

  /** The counter is exactly the length of the run of empty reads that ends the log. */
  lemma {:induction false} TrailingEmptyIsFinalRun(log: seq<Chunk>)
    ensures forall k :: |log| - TrailingEmpty(log) <= k < |log| ==> log[k] == []
    ensures TrailingEmpty(log) < |log| ==> log[|log| - TrailingEmpty(log) - 1] != []
    decreases |log|
  {
    if log != [] && log[|log| - 1] == [] {
      var init := log[..|log| - 1];
      TrailingEmptyIsFinalRun(init);
      assert forall k :: 0 <= k < |init| ==> init[k] == log[k];
    }
  }

  /** The assembler never gave up before the last read of the log: after every read but
      the last, the empty-read counter was still within its limit. */
  predicate NoStallBefore(log: seq<Chunk>)
    decreases |log|
  {
    log == [] || (NoStallBefore(log[..|log| - 1]) && TrailingEmpty(log[..|log| - 1]) <= MaxEmptyReads)
  }

  /** `NoStallBefore` read as a statement about every proper prefix of the log. */
  lemma {:induction false} NoStallBeforeMeans(log: seq<Chunk>)
    ensures NoStallBefore(log) <==> forall k :: 0 <= k < |log| ==> TrailingEmpty(log[..k]) <= MaxEmptyReads
    decreases |log|
  {
    if log != [] {
      var init := log[..|log| - 1];
      NoStallBeforeMeans(init);
      assert forall k :: 0 <= k < |init| ==> init[..k] == log[..k];
    }
  }

  /** Appending one read result to the log: the buffer grows by the chunk, the empty-read
      counter counts up on an empty chunk and drops to zero on a non-empty one, and if the
      counter had not passed its limit the longer log has still never stalled early. */
  lemma LogRead(log: seq<Chunk>, c: Chunk)
    requires NoStallBefore(log) && TrailingEmpty(log) <= MaxEmptyReads
    ensures Concat(log + [c]) == Concat(log) + c
    ensures TrailingEmpty(log + [c]) == if c == [] then TrailingEmpty(log) + 1 else 0
    ensures NoStallBefore(log + [c])
  {
  }

  /** The outcome of assembling one frame: the gathered buffer and the log of the read
      results it was gathered from. */
  datatype Assembly = Assembly(frame: Chunk, log: seq<Chunk>)

  /** Every read of the log was issued while the buffer was still short of a frame. */
  predicate IssuedWhileShort(frameSize: nat, log: seq<Chunk>)
  {
    log == [] || |Concat(log[..|log| - 1])| < frameSize
  }

  /** The read loop from an intermediate point: `log` holds the results read so far,
      `buf` what they add up to and `timeouts` the empty-read counter. */
  function Gather(frameSize: nat, trace: ReadTrace, log: seq<Chunk>, buf: Chunk, timeouts: nat): (r: Assembly)
    requires buf == Concat(log)
    requires timeouts == TrailingEmpty(log) && timeouts <= MaxEmptyReads
    requires NoStallBefore(log)
    ensures r.frame == Concat(r.log)
    ensures NoStallBefore(r.log)
    ensures |r.frame| < frameSize <==> TrailingEmpty(r.log) > MaxEmptyReads
    decreases if |buf| < frameSize then frameSize - |buf| else 0, MaxEmptyReads - timeouts
  {
    if |buf| >= frameSize then Assembly(buf, log)
    else
      var chunk := ReadAt(trace, |log|);
      LogRead(log, chunk);
      if chunk == [] then
        if timeouts + 1 > MaxEmptyReads then Assembly(buf, log + [chunk])
        else Gather(frameSize, trace, log + [chunk], buf, timeouts + 1)
      else Gather(frameSize, trace, log + [chunk], buf + chunk, 0)
  }

  /** The loop reads the trace in order, one result per call, and issues every read while
      the buffer is still short. */
  lemma {:induction false} GatherReadsInOrder(frameSize: nat, trace: ReadTrace, log: seq<Chunk>, buf: Chunk, timeouts: nat)
    requires buf == Concat(log)
    requires timeouts == TrailingEmpty(log) && timeouts <= MaxEmptyReads
    requires NoStallBefore(log)
    requires ReadsOf(log, trace) && IssuedWhileShort(frameSize, log)
    ensures ReadsOf(Gather(frameSize, trace, log, buf, timeouts).log, trace)
    ensures IssuedWhileShort(frameSize, Gather(frameSize, trace, log, buf, timeouts).log)
    decreases if |buf| < frameSize then frameSize - |buf| else 0, MaxEmptyReads - timeouts
  {
    if |buf| < frameSize {
      var chunk := ReadAt(trace, |log|);
      var log' := log + [chunk];
      LogRead(log, chunk);
      assert log'[..|log|] == log;
      assert ReadsOf(log', trace);
      if chunk == [] {
        if timeouts + 1 <= MaxEmptyReads {
          GatherReadsInOrder(frameSize, trace, log', buf, timeouts + 1);
        }
      } else {
        GatherReadsInOrder(frameSize, trace, log', buf + chunk, 0);
      }
    }
  }

  /** Reads until the buffer holds at least `frameSize` bytes, each time asking for the
      bytes still missing, or gives up after more than `MaxEmptyReads` empty reads in a row. */
  function Assemble(frameSize: nat, trace: ReadTrace): (r: Assembly)
    ensures r.frame == Concat(r.log)
    ensures ReadsOf(r.log, trace)
    ensures IssuedWhileShort(frameSize, r.log)
    ensures |r.frame| < frameSize <==> TrailingEmpty(r.log) == MaxEmptyReads + 1
    ensures forall k :: 0 <= k < |r.log| ==> TrailingEmpty(r.log[..k]) <= MaxEmptyReads
  {
    var r := Gather(frameSize, trace, [], [], 0);
    GatherReadsInOrder(frameSize, trace, [], [], 0);
    NoStallBeforeMeans(r.log);
    r
  }

  /** Every read issued while the frame is short asks only for the bytes still missing;
      a trace honours those requests when no result is longer than what was asked for. */
  predicate HonoursRequests(frameSize: nat, trace: ReadTrace)
  {
    forall k :: 0 <= k < |trace| && |Concat(trace[..k])| < frameSize ==>
      |trace[k]| <= frameSize - |Concat(trace[..k])|
  }

  /** When every read returns at most what it asked for, the buffer never outgrows the frame. */
  lemma AssembledWithinFrame(frameSize: nat, trace: ReadTrace)
    requires HonoursRequests(frameSize, trace)
    ensures |Assemble(frameSize, trace).frame| <= frameSize
  {
    var log := Assemble(frameSize, trace).log;
    if log != [] {
      var k := |log| - 1;
      assert log == log[..k] + [log[k]];
      ConcatSnoc(log[..k], log[k]);
      if k < |trace| {
        ReadsOfPrefix(log, trace);
        assert log[..k] == trace[..k];
      }
    }
  }

  /** A steady trace: every read that reaches the trace before its end gets some bytes. */
  predicate NoEmptyChunks(trace: ReadTrace)
  {
    forall k :: 0 <= k < |trace| ==> trace[k] != []
  }

  /** What a log of reads gathers is a prefix of the whole stream the trace carries,
      and all of it once the log has run past the end of the trace. */
  lemma {:induction false} LogWithinStream(log: seq<Chunk>, trace: ReadTrace)
    requires ReadsOf(log, trace)
    ensures Concat(log) <= Concat(trace)
    ensures |trace| <= |log| ==> Concat(log) == Concat(trace)
    decreases |log|
  {
    if |log| <= |trace| {
      ReadsOfPrefix(log, trace);
      assert trace == trace[..|log|] + trace[|log|..];
      ConcatAppend(trace[..|log|], trace[|log|..]);
    } else {
      var init := log[..|log| - 1];
      assert ReadsOf(init, trace);
      LogWithinStream(init, trace);
      assert log == init + [[]];
      ConcatSnoc(init, []);
      assert Concat(init) + [] == Concat(init);
    }
  }

  /** The trace never stalls the loop: no read made while the frame is still short ends
      a run of more than `MaxEmptyReads` empty results. */
  predicate NeverStalls(frameSize: nat, trace: ReadTrace)
  {
    forall k :: 0 <= k < |trace| && |Concat(trace[..k])| < frameSize ==>
      TrailingEmpty(trace[..k + 1]) <= MaxEmptyReads
  }

  /** A trace without empty results never stalls the loop. */
  lemma SteadyNeverStalls(frameSize: nat, trace: ReadTrace)
    requires NoEmptyChunks(trace)
    ensures NeverStalls(frameSize, trace)
  {
    forall k | 0 <= k < |trace| && |Concat(trace[..k])| < frameSize
      ensures TrailingEmpty(trace[..k + 1]) <= MaxEmptyReads
    {
      assert trace[..k + 1][k] == trace[k];
    }
  }

  /** A trace that never stalls the loop and carries a frame's worth of bytes fills the frame. */
  lemma NeverStallsFillsFrame(frameSize: nat, trace: ReadTrace)
    requires NeverStalls(frameSize, trace) && frameSize <= |Concat(trace)|
    ensures |Assemble(frameSize, trace).frame| >= frameSize
  {
    var r := Assemble(frameSize, trace);
    var n := |r.log|;
    if 0 < n <= |trace| {
      assert TrailingEmpty(r.log) <= MaxEmptyReads by {
        ReadsOfPrefix(r.log, trace);
        assert r.log[..n - 1] == trace[..n - 1];
        assert r.log == trace[..n];
      }
    } else if |trace| < n {
      LogWithinStream(r.log, trace);
    }
  }

  /** On a trace that honours the read requests, carries at least one frame's worth of
      bytes and never has more than `MaxEmptyReads` empty results in a row before the frame
      is full, the assembler returns exactly the first `frameSize` bytes. */
  lemma SteadyTraceYieldsFrame(frameSize: nat, trace: ReadTrace)
    requires NeverStalls(frameSize, trace) && HonoursRequests(frameSize, trace)
    requires frameSize <= |Concat(trace)|
    ensures Assemble(frameSize, trace).frame == Concat(trace)[..frameSize]
  {
    var r := Assemble(frameSize, trace);
    NeverStallsFillsFrame(frameSize, trace);
    AssembledWithinFrame(frameSize, trace);
    LogWithinStream(r.log, trace);
  }

  /** A trace that carries fewer than `frameSize` bytes yields a short frame, which holds
      every byte of the trace when the trace is steady. */
  lemma ShortTraceIsIncomplete(frameSize: nat, trace: ReadTrace)
    requires |Concat(trace)| < frameSize
    ensures |Assemble(frameSize, trace).frame| < frameSize
    ensures NoEmptyChunks(trace) ==> Assemble(frameSize, trace).frame == Concat(trace)
  {
    var r := Assemble(frameSize, trace);
    LogWithinStream(r.log, trace);
    if NoEmptyChunks(trace) {
      var k := |r.log| - 1;
      assert r.log[k] == [];
      assert ReadAt(trace, k) == [];
    }
  }
}
