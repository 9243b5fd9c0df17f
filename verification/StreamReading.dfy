/**
 Faithfulness of a read stream: the chunks delivered are the source in order, except for
 bytes that a hard error makes the stream throw away (src/stream/bc_io_stream_read.c).
 */
module StreamReading {
  import opened Bytes
  import opened StreamIo
  import opened StreamIoResult
  import opened Stream
  import BitMask

  ghost predicate Readable(s: StreamState) {
    s.mode == ReadMode && ValidState(s)
  }

  /** What the stream has not consumed yet. */
  ghost function Content(s: StreamState): bytes
    requires ValidState(s)
  {
    if s.sourceType == MemorySource then s.memory[s.memoryPosition..] else s.fd.source[s.fd.position..]
  }

  /** End of stream is only reported, and stays, when there is nothing left. */
  ghost predicate Settled(s: StreamState) {
    Readable(s) && (s.endOfStream ==> Content(s) == [])
  }

  // ---------- single calls ----------

  /** Bytes taken from the source by a call that delivered nothing. */
  function Discarded(s: StreamState): int
    requires ValidState(s)
  {
    var (s', chunk) := ReadChunk(s);
    if chunk == None then s'.fd.position - s.fd.position else 0
  }

  lemma FileReadIsNextStretch(s: StreamState)
    requires Settled(s) && s.sourceType != MemorySource && !s.endOfStream
    ensures var (s', chunk) := ReadChunkFile(s);
            && Settled(s') && s'.fd.source == s.fd.source && s.fd.position <= s'.fd.position
            && (chunk.Some? ==> chunk.value == s.fd.source[s.fd.position..s'.fd.position])
            && s'.logicalPosition == s.logicalPosition + (if chunk.Some? then |chunk.value| else 0)
            && s'.stats.bytesRead == s.stats.bytesRead + (if chunk.Some? then |chunk.value| else 0)
            && (chunk == None && s'.endOfStream ==> s'.fd.position == s.fd.position)
  {
    ReadFullConserves(s.fd, s.bufferSize, []);
  }

  lemma MemoryReadIsNextStretch(s: StreamState)
    requires Settled(s) && s.sourceType == MemorySource && !s.endOfStream
    ensures var (s', chunk) := ReadChunkMemory(s);
            && Settled(s') && s'.memory == s.memory && s'.fd == s.fd
            && Content(s) == (if chunk.Some? then chunk.value else []) + Content(s')
            && s'.logicalPosition == s.logicalPosition + (if chunk.Some? then |chunk.value| else 0)
            && s'.stats.bytesRead == s.stats.bytesRead + (if chunk.Some? then |chunk.value| else 0)
  {
  }

  /**
   One call on any stream: what leaves the content is the chunk, or the bytes discarded;
   the position and the byte counter move by the chunk alone.
   */
  lemma ReadMovesThroughContent(s: StreamState)
    requires Settled(s)
    ensures var (s', chunk) := ReadChunk(s);
            && Settled(s') && s'.sourceType == s.sourceType && s'.bufferSize == s.bufferSize
            && 0 <= Discarded(s) <= |Content(s)|
            && Content(s) == (if chunk.Some? then chunk.value else Content(s)[..Discarded(s)]) + Content(s')
            && |Content(s)| == (if chunk.Some? then |chunk.value| else 0) + Discarded(s) + |Content(s')|
            && s'.logicalPosition == s.logicalPosition + (if chunk.Some? then |chunk.value| else 0)
            && s'.stats.bytesRead == s.stats.bytesRead + (if chunk.Some? then |chunk.value| else 0)
  {
    if !s.endOfStream {
      if s.sourceType == MemorySource {
        MemoryReadIsNextStretch(s);
      } else {
        FileReadIsNextStretch(s);
      }
    }
  }

  /** End of stream is sticky. */
  lemma EndOfStreamIsSticky(s: StreamState)
    requires Settled(s)
    ensures s.endOfStream ==> ReadChunk(s) == (s, None)
    ensures ReadChunk(s).0.endOfStream ==> Content(ReadChunk(s).0) == []
  {
    ReadMovesThroughContent(s);
  }

  /**
   Exactly when a read from a descriptor reports failure: the last system call was a hard error, however
   much had been read before, or nothing was left to read.
   */
  lemma ReadFailsExactly(s: StreamState)
    requires Settled(s) && s.sourceType != MemorySource && !s.endOfStream
    ensures var (s', chunk) := ReadChunk(s);
            && (chunk == None <==> EndedOn(s.fd, s'.fd, HardError) || (s'.endOfStream && s'.fd.position == s.fd.position))
            && (s'.endOfStream ==> s'.fd.position == |s.fd.source|)
  {
    ReadFullEnds(s.fd, s.bufferSize, []);
    ReadFullConserves(s.fd, s.bufferSize, []);
  }

  /** With only short reads and interruptions ahead, the end is seen by the call that comes up against it. */
  lemma EndIsSeen(s: StreamState)
    requires Settled(s) && s.sourceType != MemorySource && !s.endOfStream && forall o :: o in s.fd.script ==> Harmless(o)
    ensures ReadChunk(s).0.endOfStream <==> s.fd.position + s.bufferSize > |s.fd.source|
  {
    HarmlessReadIsComplete(s.fd, s.bufferSize);
  }

  /** On memory, only by a call that finds nothing left; the call that delivers the last bytes does not see it. */
  lemma EndOfMemoryIsSeen(s: StreamState)
    requires Settled(s) && s.sourceType == MemorySource && !s.endOfStream
    ensures ReadChunk(s).0.endOfStream <==> Content(s) == []
    ensures ReadChunk(s).1 == None <==> Content(s) == []
  {
  }

  /** The other counters: each chunk is counted, and on a descriptor each one that does not fill the buffer is short. */
  lemma ReadIsCounted(s: StreamState)
    requires Settled(s)
    ensures var (s', chunk) := ReadChunk(s);
            && s'.stats.readCount == s.stats.readCount + (if chunk.Some? then 1 else 0)
            && s'.stats.shortReadCount
               == s.stats.shortReadCount
                  + (if chunk.Some? && s.sourceType != MemorySource && |chunk.value| < s.bufferSize then 1 else 0)
            && s'.stats.bytesWritten == s.stats.bytesWritten && s'.stats.writeCount == s.stats.writeCount
            && s'.stats.shortWriteCount == s.stats.shortWriteCount && s'.stats.retryCount == s.stats.retryCount
  {
  }

  /** A stream for writing yields nothing; that is reported and nothing changes. */
  lemma ReadNeedsReadMode(s: StreamState)
    requires ValidState(s) && s.mode == WriteMode
    ensures ReadChunk(s) == (s, None)
  {
  }

  // ---------- when bytes are lost ----------

  /**
   Decided by the outcomes to come alone: how many bytes one fill of the buffer reads
   before it meets a hard error.
   */
  function LossAhead(script: seq<Outcome>, read: nat, requested: nat, available: nat): nat
    decreases |script|
  {
    if read >= requested || script == [] then 0
    else
      match script[0]
      case Interrupted => LossAhead(script[1..], read, requested, available)
      case WouldBlock => 0
      case HardError => read
      case Transfer(atMost) =>
        var n := ReadCount(atMost, requested - read, available);
        if n == 0 then 0 else LossAhead(script[1..], read + n, requested, available - n)
  }

  lemma {:induction false} LossOfReadFull(ep: Endpoint, requested: nat, got: bytes)
    requires ValidEndpoint(ep) && |got| <= requested
    ensures var r := ReadFull(ep, requested, got);
            LossAhead(ep.script, |got|, requested, |ep.source| - ep.position) == if r.ok then 0 else |r.got|
    decreases |ep.script|
  {
    if |got| < requested {
      if ep.script == [] {
        ReadFullEnds(ep, requested, got);
      } else {
        var (ep', result) := SysRead(ep, requested - |got|);
        match result
        case Moved(n) =>
          if n > 0 {
            LossOfReadFull(ep', requested, got + ep.source[ep.position..ep.position + n]);
          }
        case Errno(o) =>
          if o.Interrupted? {
            LossOfReadFull(ep', requested, got);
          }
      }
    }
  }

  /** A call discards bytes exactly when a hard error lies ahead behind a transfer, within one buffer. */
  lemma DiscardedIsLossAhead(s: StreamState)
    requires Settled(s)
    ensures Discarded(s) ==
              if s.endOfStream || s.sourceType == MemorySource then 0
              else LossAhead(s.fd.script, 0, s.bufferSize, |s.fd.source| - s.fd.position)
  {
    if !s.endOfStream && s.sourceType != MemorySource {
      LossOfReadFull(s.fd, s.bufferSize, []);
      ReadFullConserves(s.fd, s.bufferSize, []);
    }
  }

  /** A two-byte source, one byte read, then a hard error: the call fails and the byte is gone. */
  lemma HardErrorLosesBytes()
    ensures var fd := Endpoint([Transfer(1), HardError], [], [7, 8], 0);
            var s := StreamState(FileSource, ReadMode, 64, [], false, [], 0, Some(2), 0, ZeroStreamStats, fd);
            && Settled(s) && ReadChunk(s).1 == None && Discarded(s) == 1
            && ReadChunk(ReadChunk(s).0).1 == Some([8])
            && ReadChunk(ReadChunk(s).0).0.logicalPosition == 1
  {
    var fd := Endpoint([Transfer(1), HardError], [], [7, 8], 0);
    var s := StreamState(FileSource, ReadMode, 64, [], false, [], 0, Some(2), 0, ZeroStreamStats, fd);
    var fd1 := Endpoint([HardError], [], [7, 8], 1);
    var fd2 := Endpoint([], [], [7, 8], 1);
    assert fd.script[1..] == [HardError] && fd1.script[1..] == [] && fd.source[0..1] == [7] && fd2.source[1..2] == [8];
    assert SysRead(fd, 64) == (fd1, Moved(1)) && SysRead(fd1, 63) == (fd2, Errno(HardError));
    assert ReadFull(fd1, 64, [7]) == ReadResult(fd2, [7], false, false);
    assert ReadFull(fd, 64, []) == ReadFull(fd1, 64, [] + [7]);
    assert ReadChunk(s) == (s.(fd := fd2), None);
    HarmlessReadIsComplete(fd2, 64);
    assert ReadFull(fd2, 64, []).got == [8];
  }

  // ---------- runs ----------

  function AfterReads(s: StreamState, n: nat): StreamState
    requires ValidState(s)
    ensures ValidState(AfterReads(s, n))
  {
    if n == 0 then s
    else
      var s' := AfterReads(s, n - 1);
      ReadKeepsValid(s');
      ReadChunk(s').0
  }

  lemma ReadKeepsValid(s: StreamState)
    requires ValidState(s)
    ensures ValidState(ReadChunk(s).0)
  {
  }

  /** The chunks delivered by `n` calls, concatenated. */
  ghost function Delivered(s: StreamState, n: nat): bytes
    requires ValidState(s)
  {
    if n == 0 then []
    else
      var chunk := ReadChunk(AfterReads(s, n - 1)).1;
      Delivered(s, n - 1) + if chunk.Some? then chunk.value else []
  }

  ghost function TotalDiscarded(s: StreamState, n: nat): int
    requires ValidState(s)
  {
    if n == 0 then 0 else TotalDiscarded(s, n - 1) + Discarded(AfterReads(s, n - 1))
  }

  /** Over every run: consumed is delivered plus discarded; position and byte counter count what was delivered. */
  lemma {:induction false} RunMovesThroughContent(s: StreamState, n: nat)
    requires Settled(s)
    ensures var s' := AfterReads(s, n);
            && Settled(s') && s'.sourceType == s.sourceType && s'.bufferSize == s.bufferSize
            && 0 <= TotalDiscarded(s, n)
            && |Content(s)| == |Delivered(s, n)| + TotalDiscarded(s, n) + |Content(s')|
            && s'.logicalPosition == s.logicalPosition + |Delivered(s, n)|
            && s'.stats.bytesRead == s.stats.bytesRead + |Delivered(s, n)|
  {
    hide ReadChunk, Discarded, Content;
    if n > 0 {
      RunMovesThroughContent(s, n - 1);
      ReadMovesThroughContent(AfterReads(s, n - 1));
    }
  }

  /** While nothing has been discarded, the delivered bytes are the consumed ones, in order. */
  lemma {:induction false} RunDeliversInOrder(s: StreamState, n: nat)
    requires Settled(s) && TotalDiscarded(s, n) == 0
    ensures Content(s) == Delivered(s, n) + Content(AfterReads(s, n))
  {
    hide ReadChunk, Discarded, Content;
    if n > 0 {
      var before := AfterReads(s, n - 1);
      RunMovesThroughContent(s, n - 1);
      ReadMovesThroughContent(before);
      RunDeliversInOrder(s, n - 1);
      var (after, chunk) := ReadChunk(before);
      var step := if chunk.Some? then chunk.value else [];
      assert Delivered(s, n - 1) + (step + Content(after)) == (Delivered(s, n - 1) + step) + Content(after);
    }
  }

  /** The run is faithful, delivering exactly what it consumed, if and only if no call discarded anything. */
  lemma FaithfulExactlyWithoutLoss(s: StreamState, n: nat)
    requires Settled(s)
    ensures Content(s) == Delivered(s, n) + Content(AfterReads(s, n)) <==> TotalDiscarded(s, n) == 0
  {
    RunMovesThroughContent(s, n);
    if TotalDiscarded(s, n) == 0 {
      RunDeliversInOrder(s, n);
    }
    assert |Delivered(s, n) + Content(AfterReads(s, n))| == |Delivered(s, n)| + |Content(AfterReads(s, n))|;
  }

  /** The outcomes ahead of a call do not make it throw anything away. */
  predicate NoLossAhead(s: StreamState)
    requires ValidState(s)
  {
    s.endOfStream || s.sourceType == MemorySource
    || LossAhead(s.fd.script, 0, s.bufferSize, |s.fd.source| - s.fd.position) == 0
  }

  /** The same through the outcomes ahead of each call: the run is faithful iff none of them brings a loss. */
  lemma FaithfulExactlyWhenNoLossAhead(s: StreamState, n: nat)
    requires Settled(s)
    ensures Content(s) == Delivered(s, n) + Content(AfterReads(s, n))
            <==> forall i :: 0 <= i < n ==> NoLossAhead(AfterReads(s, i))
  {
    FaithfulExactlyWithoutLoss(s, n);
    TotalIsZeroExactly(s, n);
  }

  lemma {:induction false} TotalIsZeroExactly(s: StreamState, n: nat)
    requires Settled(s)
    ensures TotalDiscarded(s, n) == 0 <==> forall i :: 0 <= i < n ==> NoLossAhead(AfterReads(s, i))
  {
    hide ReadChunk, Discarded, Content;
    if n > 0 {
      TotalIsZeroExactly(s, n - 1);
      RunMovesThroughContent(s, n - 1);
      ReadMovesThroughContent(AfterReads(s, n - 1));
      DiscardedIsLossAhead(AfterReads(s, n - 1));
    }
  }

  // ---------- when nothing goes wrong ----------

  /** The content cut into buffer-sized chunks, the last one possibly shorter. */
  function Chunks(data: bytes, size: nat): seq<bytes>
    requires size > 0
  {
    if data == [] then [] else [data[..Min(size, |data|)]] + Chunks(data[Min(size, |data|)..], size)
  }

  function Concat(chunks: seq<bytes>): bytes {
    if chunks == [] then [] else chunks[0] + Concat(chunks[1..])
  }

  /** Put together again, the chunks are the content. */
  lemma {:induction false} ChunksMakeTheContent(data: bytes, size: nat)
    requires size > 0
    ensures Concat(Chunks(data, size)) == data
    decreases |data|
  {
    if data != [] {
      ChunksMakeTheContent(data[Min(size, |data|)..], size);
    }
  }

  /** There are as many chunks as the length divided by the buffer size, rounded up. */
  lemma {:induction false} NumberOfChunks(data: bytes, size: nat)
    requires size > 0
    ensures |Chunks(data, size)| == (|data| + size - 1) / size
    decreases |data|
  {
    if data == [] {
      QuotientBelow(size - 1, size);
    } else if |data| <= size {
      assert data[|data|..] == [];
      QuotientBelow(|data| - 1, size);
      QuotientStep(|data| - 1, size);
    } else {
      NumberOfChunks(data[size..], size);
      QuotientStep(|data| - 1, size);
    }
  }

  lemma QuotientBelow(a: nat, b: nat)
    requires a < b
    ensures a / b == 0
  {
  }

  lemma QuotientStep(a: nat, b: nat)
    requires b > 0
    ensures (a + b) / b == a / b + 1
  {
    var q, r := a / b, a % b;
    assert a == q * b + r;
    assert a + b == (q + 1) * b + r;
    BitMask.QuotientIsUnique(b, q + 1, r, (a + b) / b, (a + b) % b);
  }

  /** Memory, or a descriptor with only short reads and interruptions ahead. */
  ghost predicate Untroubled(s: StreamState) {
    Settled(s) && (s.sourceType != MemorySource ==> forall o :: o in s.fd.script ==> Harmless(o))
  }

  lemma UntroubledFileRead(s: StreamState)
    requires Untroubled(s) && s.sourceType != MemorySource && !s.endOfStream
    ensures var (s', chunk) := ReadChunkFile(s);
            var n := Min(s.bufferSize, |Content(s)|);
            && Untroubled(s') && s'.bufferSize == s.bufferSize && s'.sourceType == s.sourceType
            && chunk == (if Content(s) == [] then None else Some(Content(s)[..n]))
            && Content(s') == Content(s)[n..]
  {
    var from, n := s.fd.position, Min(s.bufferSize, |Content(s)|);
    HarmlessReadIsComplete(s.fd, s.bufferSize);
    ReadFullConserves(s.fd, s.bufferSize, []);
    assert s.fd.source[from..from + n] == Content(s)[..n];
    assert s.fd.source[from + n..] == Content(s)[n..];
  }

  /** An untroubled call delivers the next buffer's worth of content, or None when there is none. */
  lemma UntroubledRead(s: StreamState)
    requires Untroubled(s)
    ensures var (s', chunk) := ReadChunk(s);
            var n := Min(s.bufferSize, |Content(s)|);
            && Untroubled(s') && s'.bufferSize == s.bufferSize
            && chunk == (if Content(s) == [] then None else Some(Content(s)[..n]))
            && Content(s') == Content(s)[n..]
  {
    var n := Min(s.bufferSize, |Content(s)|);
    if s.endOfStream {
      assert Content(s)[n..] == Content(s);
    } else if s.sourceType == MemorySource {
      assert s.memory[s.memoryPosition..s.memoryPosition + n] == Content(s)[..n];
      assert s.memory[s.memoryPosition + n..] == Content(s)[n..];
    } else {
      UntroubledFileRead(s);
    }
  }

  /**
   A file, pipe or socket and a memory source yield the same chunks: call number `i`
   returns chunk number `i`, and false once they are used up.
   */
  lemma {:induction false} UntroubledReadsYieldChunks(s: StreamState, i: nat)
    requires Untroubled(s)
    ensures var chunks := Chunks(Content(s), s.bufferSize);
            ReadChunk(AfterReads(s, i)).1 == if i < |chunks| then Some(chunks[i]) else None
    decreases i
  {
    hide ReadChunk, Content;
    UntroubledRead(s);
    if i > 0 {
      var s' := ReadChunk(s).0;
      UntroubledReadsYieldChunks(s', i - 1);
      ReadsFromNext(s, i);
    }
  }

  /** So once there have been as many calls as chunks, exactly the whole content has been delivered. */
  lemma UntroubledReadsDeliverAll(s: StreamState, n: nat)
    requires Untroubled(s) && n >= |Chunks(Content(s), s.bufferSize)|
    ensures Delivered(s, n) == Content(s)
  {
    hide ReadChunk, Content;
    UntroubledAfterReads(s, n);
    UntroubledReadsYieldChunks(s, n);
    UntroubledRead(AfterReads(s, n));
    RunDeliversInOrder(s, n);
  }

  lemma {:induction false} UntroubledAfterReads(s: StreamState, n: nat)
    requires Untroubled(s)
    ensures Untroubled(AfterReads(s, n)) && TotalDiscarded(s, n) == 0
  {
    if n > 0 {
      var before := AfterReads(s, n - 1);
      UntroubledAfterReads(s, n - 1);
      UntroubledRead(before);
      ReadMovesThroughContent(before);
      NothingDiscarded(before);
    }
  }

  lemma NothingDiscarded(s: StreamState)
    requires Untroubled(s)
    ensures Discarded(s) == 0
  {
    hide ReadChunk;
    DiscardedIsLossAhead(s);
    if !s.endOfStream && s.sourceType != MemorySource {
      HarmlessIsNoLoss(s.fd.script, 0, s.bufferSize, |s.fd.source| - s.fd.position);
    }
  }

  lemma {:induction false} HarmlessIsNoLoss(script: seq<Outcome>, read: nat, requested: nat, available: nat)
    requires forall o :: o in script ==> Harmless(o)
    ensures LossAhead(script, read, requested, available) == 0
    decreases |script|
  {
    if read < requested && script != [] {
      assert script[0] in script;
      match script[0]
      case Interrupted => HarmlessIsNoLoss(script[1..], read, requested, available);
      case Transfer(atMost) =>
        var n := ReadCount(atMost, requested - read, available);
        HarmlessIsNoLoss(script[1..], read + n, requested, available - n);
    }
  }

  lemma {:induction false} ReadsFromNext(s: StreamState, n: nat)
    requires ValidState(s) && ValidState(ReadChunk(s).0) && n > 0
    ensures AfterReads(s, n) == AfterReads(ReadChunk(s).0, n - 1)
  {
    if n > 1 {
      ReadsFromNext(s, n - 1);
    }
  }

  // ---------- metadata ----------

  /**
   On a stream whose size was taken when it was opened, remaining_bytes reports after any number of
   reads what is still to come plus what was thrown away; so it is exact iff nothing was thrown away.
   */
  lemma RemainingCountsDiscarded(s: StreamState, n: nat)
    requires Settled(s) && s.logicalPosition == 0 && s.totalSize == Some(|Content(s)|) && |Content(s)| <= BitMask.SIZE_MAX
    ensures TotalDiscarded(s, n) >= 0
    ensures Remaining(AfterReads(s, n)) == Some(|Content(AfterReads(s, n))| + TotalDiscarded(s, n))
  {
    hide ReadChunk, Discarded, Content, TotalDiscarded, Delivered, AfterReads;
    RunMovesThroughContent(s, n);
    ReadsKeepTotalSize(s, n);
  }

  lemma {:induction false} ReadsKeepTotalSize(s: StreamState, n: nat)
    requires ValidState(s)
    ensures AfterReads(s, n).totalSize == s.totalSize
  {
    if n > 0 {
      ReadsKeepTotalSize(s, n - 1);
    }
  }

  /** Where the size is not known, that is what remaining_bytes says, after any number of reads, and only there. */
  lemma RemainingNeedsSize(s: StreamState, n: nat)
    requires ValidState(s)
    ensures Remaining(AfterReads(s, n)) == None <==> s.totalSize == None
  {
    ReadsKeepTotalSize(s, n);
  }

  /** On a memory stream it is always the number of bytes still to come. */
  lemma RemainingOfMemoryStream(data: bytes, n: nat)
    requires |data| <= BitMask.SIZE_MAX
    ensures var s := StreamState(MemorySource, ReadMode, 131072, [], false, data, 0,
                                 Some(|data|), 0, ZeroStreamStats, Endpoint([], [], [], 0));
            Remaining(AfterReads(s, n)) == Some(|Content(AfterReads(s, n))|)
  {
    var s := StreamState(MemorySource, ReadMode, 131072, [], false, data, 0,
                         Some(|data|), 0, ZeroStreamStats, Endpoint([], [], [], 0));
    UntroubledAfterReads(s, n);
    RemainingCountsDiscarded(s, n);
  }
}
