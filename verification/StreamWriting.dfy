/**
 Conservation on a write stream: over every sequence of writes and flushes, and every
 outcome of every system call, the bytes that reached the sink followed by the bytes still
 buffered are the accepted bytes in order (src/stream/bc_io_stream_write.c).
 */
module StreamWriting {
  import opened Bytes
  import opened StreamIo
  import opened StreamIoResult
  import opened Stream

  ghost predicate Writable(s: StreamState) {
    s.mode == WriteMode && s.sourceType != MemorySource && ValidState(s)
  }

  /** What has left the caller's hands: the sink, then the buffer. */
  ghost function Held(s: StreamState): bytes {
    s.fd.sink + s.pending
  }

  // ---------- single calls ----------

  /** From `s` to `s'` exactly `accepted` was taken in, and nothing already in the sink was touched. */
  ghost predicate TakesIn(s: StreamState, s': StreamState, accepted: bytes) {
    && Held(s') == Held(s) + accepted
    && s.fd.sink <= s'.fd.sink
    && s'.logicalPosition == s.logicalPosition + |accepted|
    && s'.stats.bytesWritten == s.stats.bytesWritten + |accepted|
    && s'.bufferSize == s.bufferSize && s'.mode == s.mode && s'.sourceType == s.sourceType
  }

  /** Flushing moves bytes from the buffer to the sink; it succeeds exactly when the buffer ends up empty. */
  lemma FlushTakesNothing(s: StreamState)
    requires Writable(s)
    ensures var (s', ok) := Flush(s);
            Writable(s') && TakesIn(s, s', []) && (ok <==> s'.pending == [])
  {
    if s.pending != [] {
      WriteFullConserves(s.fd, s.pending, 0);
      WriteFullEnds(s.fd, s.pending, 0);
      var n := WriteFull(s.fd, s.pending, 0).written;
      assert s.pending[0..n] + s.pending[n..] == s.pending;
    }
  }

  lemma UnbufferedTakesPrefix(s: StreamState, data: bytes)
    requires Writable(s) && s.pending == [] && data != []
    ensures var (s', n, ok) := WriteUnbuffered(s, data);
            && n <= |data| && Writable(s') && TakesIn(s, s', data[..n])
            && (ok && n < |data| ==> |data| >= s.bufferSize)
  {
    if |data| >= s.bufferSize {
      WriteFullConserves(s.fd, data, 0);
      var n := WriteFull(s.fd, data, 0).written;
      assert data[0..n] == data[..n];
    } else {
      assert data[..|data|] == data;
    }
  }

  /** Whatever happens to the system calls, a write takes in exactly the prefix it reports. */
  lemma WriteTakesReportedPrefix(s: StreamState, data: bytes)
    requires Writable(s)
    ensures var (s', n, ok) := WriteChunk(s, data);
            n <= |data| && Writable(s') && TakesIn(s, s', data[..n])
  {
    if data != [] {
      if |s.pending| + |data| <= s.bufferSize {
        assert data[..|data|] == data;
        assert s.fd.sink + (s.pending + data) == Held(s) + data;
      } else {
        FlushTakesNothing(s);
        var (s', ok) := Flush(s);
        if ok {
          UnbufferedTakesPrefix(s', data);
          var n := WriteUnbuffered(s', data).1;
          assert Held(s) + [] + data[..n] == Held(s) + data[..n];
        }
      }
    }
  }

  /** The data does not fit next to what is buffered. */
  predicate Overflows(s: StreamState, data: bytes) {
    data != [] && |s.pending| + |data| > s.bufferSize
  }

  /**
   Exactly when a write reports failure: the buffer had to be flushed and its bytes do not get out, or the
   data was written directly and the last system call was a hard error. A short direct write is a success.
   */
  lemma WriteFailsExactly(s: StreamState, data: bytes)
    requires Writable(s)
    ensures var (s', n, ok) := WriteChunk(s, data);
            !ok <==> Overflows(s, data)
                     && (!GetsThrough(s.fd.script, |s.pending|)
                         || (|data| >= s.bufferSize && EndedOn(Flush(s).0.fd, s'.fd, HardError)))
  {
    if Overflows(s, data) {
      FlushResult(s);
      var (flushed, ok) := Flush(s);
      if ok && |data| >= s.bufferSize {
        WriteFullEnds(flushed.fd, data, 0);
      }
    }
  }

  lemma FlushResult(s: StreamState)
    requires Writable(s)
    ensures Flush(s).1 <==> GetsThrough(s.fd.script, |s.pending|)
  {
    if s.pending != [] {
      WriteFullGetsThrough(s.fd, s.pending, 0);
      WriteFullEnds(s.fd, s.pending, 0);
    }
  }

  /**
   Where the bytes go. Data that fits is only buffered, without a system call. Data that does not fit follows
   the buffered bytes: as much as the buffer holds, or more, goes straight to the descriptor, less is buffered.
   */
  lemma WriteGoesWhere(s: StreamState, data: bytes)
    requires Writable(s)
    ensures var (s', n, ok) := WriteChunk(s, data);
            && (!Overflows(s, data) ==> s'.fd == s.fd && s'.pending == s.pending + data && n == |data|)
            && (Overflows(s, data) && !GetsThrough(s.fd.script, |s.pending|) ==> n == 0 && s'.pending != [])
            && (Overflows(s, data) && GetsThrough(s.fd.script, |s.pending|) && |data| < s.bufferSize ==>
                  s'.pending == data && n == |data| && s'.fd.sink == s.fd.sink + s.pending)
            && (Overflows(s, data) && GetsThrough(s.fd.script, |s.pending|) && |data| >= s.bufferSize ==>
                  s'.pending == [] && s'.fd.sink == s.fd.sink + s.pending + data[..n])
  {
    if Overflows(s, data) {
      FlushResult(s);
      FlushTakesNothing(s);
      var (flushed, ok) := Flush(s);
      assert ok ==> flushed.fd.sink + [] == flushed.fd.sink && s.fd.sink + s.pending + [] == s.fd.sink + s.pending;
      if ok && |data| >= s.bufferSize {
        WriteFullConserves(flushed.fd, data, 0);
        assert data[0..WriteChunk(s, data).1] == data[..WriteChunk(s, data).1];
      }
    } else {
      assert data == [] ==> s.pending + data == s.pending;
    }
  }

  /**
   The other counters: a write is counted unless it was empty or stopped by its flush, and every flush and
   every direct write that leaves bytes behind is counted as short.
   */
  lemma WriteIsCounted(s: StreamState, data: bytes)
    requires Writable(s)
    ensures var (s', n, ok) := WriteChunk(s, data);
            var stuck := Overflows(s, data) && !GetsThrough(s.fd.script, |s.pending|);
            && s'.stats.writeCount == s.stats.writeCount + (if data == [] || stuck then 0 else 1)
            && s'.stats.shortWriteCount == s.stats.shortWriteCount + (if n < |data| then 1 else 0)
            && s'.stats.bytesRead == s.stats.bytesRead && s'.stats.readCount == s.stats.readCount
            && s'.stats.shortReadCount == s.stats.shortReadCount && s'.stats.retryCount == s.stats.retryCount
  {
    if Overflows(s, data) {
      FlushResult(s);
      FlushTakesNothing(s);
    }
  }

  /** A flush is counted only when it falls short, and nothing else of the stream moves. */
  lemma FlushIsCounted(s: StreamState)
    requires Writable(s)
    ensures var (s', ok) := Flush(s);
            && s'.stats == s.stats.(shortWriteCount := s.stats.shortWriteCount + if ok then 0 else 1)
            && s' == s.(stats := s'.stats, pending := s'.pending, fd := s'.fd)
            && (s.pending == [] ==> s'.fd == s.fd)
  {
    if s.pending != [] {
      WriteFullEnds(s.fd, s.pending, 0);
    }
  }

  /** A stream for reading, or on memory, takes nothing; that is reported and nothing changes. */
  lemma WriteNeedsWriteMode(s: StreamState, data: bytes)
    requires s.mode == ReadMode || s.sourceType == MemorySource
    ensures WriteChunk(s, data) == (s, 0, false)
  {
  }

  // ---------- runs ----------

  datatype Op = Write(data: bytes) | FlushOp

  /** The state after the operations. */
  function AfterOps(s: StreamState, ops: seq<Op>): StreamState {
    if ops == [] then s
    else
      var s' := AfterOps(s, ops[..|ops| - 1]);
      match ops[|ops| - 1]
      case Write(data) => WriteChunk(s', data).0
      case FlushOp => Flush(s').0
  }

  /** The concatenation, in call order, of the prefixes the writes reported as accepted. */
  ghost function Accepted(s: StreamState, ops: seq<Op>): bytes
    requires Writable(s)
  {
    if ops == [] then []
    else
      var init := ops[..|ops| - 1];
      AfterOpsWritable(s, init);
      Accepted(s, init)
      + match ops[|ops| - 1]
        case Write(data) =>
          WriteTakesReportedPrefix(AfterOps(s, init), data);
          data[..WriteChunk(AfterOps(s, init), data).1]
        case FlushOp => []
  }

  lemma {:induction false} AfterOpsWritable(s: StreamState, ops: seq<Op>)
    requires Writable(s)
    ensures Writable(AfterOps(s, ops))
  {
    if ops != [] {
      var s' := AfterOps(s, ops[..|ops| - 1]);
      AfterOpsWritable(s, ops[..|ops| - 1]);
      match ops[|ops| - 1]
      case Write(data) => WriteTakesReportedPrefix(s', data);
      case FlushOp => FlushTakesNothing(s');
    }
  }

  lemma TakesInThen(a: StreamState, b: StreamState, c: StreamState, first: bytes, second: bytes)
    requires TakesIn(a, b, first) && TakesIn(b, c, second)
    ensures TakesIn(a, c, first + second)
  {
    assert Held(a) + (first + second) == (Held(a) + first) + second;
  }

  /**
   Conservation over every run: sink plus buffer is what was there plus the accepted bytes in
   order, the sink only grows, and position and byte counter count the accepted bytes.
   */
  lemma {:induction false} RunConservesBytes(s: StreamState, ops: seq<Op>)
    requires Writable(s)
    ensures Writable(AfterOps(s, ops)) && TakesIn(s, AfterOps(s, ops), Accepted(s, ops))
  {
    if ops == [] {
      assert Held(s) + [] == Held(s);
    } else {
      var init := ops[..|ops| - 1];
      var s' := AfterOps(s, init);
      RunConservesBytes(s, init);
      match ops[|ops| - 1]
      case Write(data) =>
        WriteTakesReportedPrefix(s', data);
        TakesInThen(s, s', AfterOps(s, ops), Accepted(s, init), data[..WriteChunk(s', data).1]);
      case FlushOp =>
        FlushTakesNothing(s');
        TakesInThen(s, s', AfterOps(s, ops), Accepted(s, init), []);
    }
  }

  /** A stream as it is after opening it for writing on a descriptor whose sink is still empty. */
  predicate JustOpened(s: StreamState) {
    s.pending == [] && s.fd.sink == [] && s.logicalPosition == 0 && s.stats == ZeroStreamStats
  }

  /**
   On a freshly opened stream: the sink is always a prefix of the accepted bytes, and
   position, counter and sink plus buffer always agree.
   */
  lemma WriteStreamInvariant(s: StreamState, ops: seq<Op>)
    requires Writable(s) && JustOpened(s)
    ensures var s' := AfterOps(s, ops);
            && s'.fd.sink + s'.pending == Accepted(s, ops)
            && s'.fd.sink <= Accepted(s, ops)
            && s'.logicalPosition == s'.stats.bytesWritten == |s'.fd.sink| + |s'.pending|
            && |s'.pending| <= s'.bufferSize
  {
    RunConservesBytes(s, ops);
    assert Held(s) + Accepted(s, ops) == Accepted(s, ops);
  }

  /** After any run, a successful flush has delivered every accepted byte; a failed one keeps the rest buffered. */
  lemma FlushDelivers(s: StreamState, ops: seq<Op>)
    requires Writable(s) && JustOpened(s)
    ensures var (s', ok) := Flush(AfterOps(s, ops));
            (ok <==> s'.fd.sink == Accepted(s, ops)) && s'.fd.sink + s'.pending == Accepted(s, ops)
  {
    WriteStreamInvariant(s, ops);
    AfterOpsWritable(s, ops);
    FlushTakesNothing(AfterOps(s, ops));
    var s' := Flush(AfterOps(s, ops)).0;
    assert Accepted(s, ops) + [] == Accepted(s, ops);
    assert s'.fd.sink + s'.pending == s'.fd.sink ==> s'.pending == [] by {
      assert |s'.fd.sink + s'.pending| == |s'.fd.sink| + |s'.pending|;
    }
  }

  // ---------- closing ----------

  /**
   Closing flushes once and ignores the result. All accepted bytes are in the sink afterwards
   exactly when the bytes still buffered get through the outcomes to come; otherwise they are lost.
   */
  lemma CloseDeliversExactlyWhenItGetsThrough(s: StreamState, ops: seq<Op>)
    requires Writable(s) && JustOpened(s)
    ensures var e := AfterOps(s, ops);
            Flush(e).0.fd.sink == Accepted(s, ops) <==> GetsThrough(e.fd.script, |e.pending|)
  {
    var e := AfterOps(s, ops);
    FlushDelivers(s, ops);
    if e.pending != [] {
      WriteFullGetsThrough(e.fd, e.pending, 0);
      WriteFullEnds(e.fd, e.pending, 0);
    }
  }

  /** One byte is accepted into the buffer, the only write of the closing flush fails, and the byte is gone. */
  lemma CloseCanLoseBytes()
    ensures var s := StreamState(FileSource, WriteMode, 64, [], false, [], 0, None, 0, ZeroStreamStats,
                                 Endpoint([HardError], [], [], 0));
            var ops := [Write([7])];
            && Writable(s) && JustOpened(s)
            && WriteChunk(s, [7]).1 == 1 && WriteChunk(s, [7]).2
            && Accepted(s, ops) == [7] && Flush(AfterOps(s, ops)).0.fd.sink == []
  {
    var s := StreamState(FileSource, WriteMode, 64, [], false, [], 0, None, 0, ZeroStreamStats,
                         Endpoint([HardError], [], [], 0));
    var ops := [Write([7])];
    assert ops[..0] == [] && [] + [7 as byte] == [7];
    var e := AfterOps(s, ops);
    assert e == WriteChunk(s, [7]).0;
    WriteFullConserves(e.fd, e.pending, 0);
    assert SysWrite(e.fd, [7][0..]) == (Consume(e.fd), Errno(HardError));
  }

  // ---------- when nothing goes wrong ----------

  /** Only short writes and interruptions lie ahead. */
  ghost predicate Untroubled(s: StreamState) {
    forall o :: o in s.fd.script ==> Harmless(o)
  }

  lemma UntroubledFlush(s: StreamState)
    requires Writable(s) && Untroubled(s)
    ensures var (s', ok) := Flush(s); ok && Untroubled(s')
  {
    if s.pending != [] {
      HarmlessWriteIsComplete(s.fd, s.pending);
    }
  }

  lemma UntroubledWrite(s: StreamState, data: bytes)
    requires Writable(s) && Untroubled(s)
    ensures var (s', n, ok) := WriteChunk(s, data); ok && n == |data| && Untroubled(s')
  {
    if data != [] && |s.pending| + |data| > s.bufferSize {
      UntroubledFlush(s);
      if |data| >= s.bufferSize {
        HarmlessWriteIsComplete(Flush(s).0.fd, data);
      }
    }
  }

  ghost function AllData(ops: seq<Op>): bytes {
    if ops == [] then []
    else AllData(ops[..|ops| - 1]) + if ops[|ops| - 1].Write? then ops[|ops| - 1].data else []
  }

  /** With nothing worse than short writes and interruptions, every byte handed in is accepted. */
  lemma {:induction false} UntroubledRunAcceptsAll(s: StreamState, ops: seq<Op>)
    requires Writable(s) && Untroubled(s)
    ensures Accepted(s, ops) == AllData(ops) && Untroubled(AfterOps(s, ops))
  {
    if ops != [] {
      var init := ops[..|ops| - 1];
      UntroubledRunAcceptsAll(s, init);
      AfterOpsWritable(s, init);
      match ops[|ops| - 1]
      case Write(data) =>
        UntroubledWrite(AfterOps(s, init), data);
        assert data[..|data|] == data;
      case FlushOp => UntroubledFlush(AfterOps(s, init));
    }
  }

  /** Then closing leaves exactly the concatenation of all writes in the sink. */
  lemma UntroubledCloseDeliversAll(s: StreamState, ops: seq<Op>)
    requires Writable(s) && JustOpened(s) && Untroubled(s)
    ensures Flush(AfterOps(s, ops)).0.fd.sink == AllData(ops)
  {
    UntroubledRunAcceptsAll(s, ops);
    AfterOpsWritable(s, ops);
    UntroubledFlush(AfterOps(s, ops));
    FlushDelivers(s, ops);
  }
}
