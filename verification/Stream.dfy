/**
 The buffered stream (src/stream/bc_io_stream.c, bc_io_stream_read.c, bc_io_stream_write.c):
 its operations as functions of the stream's state, and as code over a buffer array and a
 descriptor. What the functions guarantee is stated in StreamWriting and StreamReading.
 */
module Stream {
  import opened Bytes
  import opened StreamIo
  import BitMask

  datatype SourceType = FileSource | SocketSource | MemorySource | PipeSource
  datatype Mode = ReadMode | WriteMode

  datatype StreamStats = StreamStats(
    bytesRead: nat, bytesWritten: nat, readCount: nat, writeCount: nat,
    shortReadCount: nat, shortWriteCount: nat, retryCount: nat)

  const ZeroStreamStats := StreamStats(0, 0, 0, 0, 0, 0, 0)

  const BUFFER_ALIGNMENT: nat := 64

  function DefaultBufferSize(sourceType: SourceType): nat {
    match sourceType
    case FileSource => 131072
    case SocketSource => 32768
    case PipeSource => 65536
    case MemorySource => 131072
  }

  /** The least multiple of the alignment that is at least `size`; None when adding to `size` would wrap. */
  function AlignUp(size: nat): (aligned: Option<nat>)
    ensures aligned.None? <==> size + 63 > 0xFFFF_FFFF_FFFF_FFFF
    ensures aligned.Some? ==> aligned.value % 64 == 0 && size <= aligned.value < size + 64
  {
    if size + BUFFER_ALIGNMENT - 1 > BitMask.SIZE_MAX then None
    else Some((size + BUFFER_ALIGNMENT - 1) / BUFFER_ALIGNMENT * BUFFER_ALIGNMENT)
  }

  /** The buffer size a caller gets: aligned, and the default for the kind of source when zero is asked for. */
  function BufferSizeFor(sourceType: SourceType, requestedSize: nat): Option<nat> {
    AlignUp(if requestedSize == 0 then DefaultBufferSize(sourceType) else requestedSize)
  }

  /** The sizes that callers get. */
  lemma KnownBufferSizes()
    ensures BufferSizeFor(FileSource, 0) == BufferSizeFor(MemorySource, 0) == Some(131072)
    ensures BufferSizeFor(SocketSource, 0) == Some(32768) && BufferSizeFor(PipeSource, 0) == Some(65536)
    ensures BufferSizeFor(FileSource, 1) == BufferSizeFor(PipeSource, 64) == Some(64)
    ensures BufferSizeFor(SocketSource, 65) == Some(128)
  {
  }

  /** A stream: `pending` is the used part of its buffer, `fd` its descriptor. */
  datatype StreamState = StreamState(
    sourceType: SourceType,
    mode: Mode,
    bufferSize: nat,
    pending: bytes,
    endOfStream: bool,
    memory: bytes,
    memoryPosition: nat,
    totalSize: Option<nat>,
    logicalPosition: nat,
    stats: StreamStats,
    fd: Endpoint)

  ghost predicate ValidState(s: StreamState) {
    && 0 < s.bufferSize
    && |s.pending| <= s.bufferSize
    && s.memoryPosition <= |s.memory|
    && ValidEndpoint(s.fd)
  }

  // ---------- writing, as functions ----------

  /** bc_io_stream_flush: the buffer keeps what could not be written. */
  function Flush(s: StreamState): (StreamState, bool) {
    if s.pending == [] then (s, true)
    else
      var r := WriteFull(s.fd, s.pending, 0);
      var s' := s.(fd := r.endpoint, pending := s.pending[r.written..]);
      if r.written < |s.pending|
      then (s'.(stats := s.stats.(shortWriteCount := s.stats.shortWriteCount + 1)), false)
      else (s', r.ok)
  }

  /** The counters and the position after `n` more bytes have been accepted. */
  function Account(s: StreamState, n: nat): StreamState {
    s.(stats := s.stats.(bytesWritten := s.stats.bytesWritten + n, writeCount := s.stats.writeCount + 1),
       logicalPosition := s.logicalPosition + n)
  }

  /** What write_chunk does once the buffer is empty and the data does not fit next to what was in it. */
  function WriteUnbuffered(s: StreamState, data: bytes): (StreamState, nat, bool) {
    if |data| >= s.bufferSize then
      var r := WriteFull(s.fd, data, 0);
      var s' := Account(s.(fd := r.endpoint), r.written);
      (if r.written < |data| then s'.(stats := s'.stats.(shortWriteCount := s'.stats.shortWriteCount + 1)) else s',
       r.written, r.ok)
    else
      (Account(s.(pending := data), |data|), |data|, true)
  }

  /** bc_io_stream_write_chunk: the new state, `*out_bytes_written` and the result. */
  function WriteChunk(s: StreamState, data: bytes): (StreamState, nat, bool) {
    if s.mode != WriteMode || s.sourceType == MemorySource then (s, 0, false)
    else if data == [] then (s, 0, true)
    else if |s.pending| + |data| <= s.bufferSize then
      (Account(s.(pending := s.pending + data), |data|), |data|, true)
    else
      var (s', ok) := Flush(s);
      if !ok then (s', 0, false) else WriteUnbuffered(s', data)
  }

  // ---------- reading, as functions ----------

  function ReadChunkFile(s: StreamState): (StreamState, Option<bytes>)
    requires ValidState(s)
  {
    var r := ReadFull(s.fd, s.bufferSize, []);
    var s1 := s.(fd := r.endpoint);
    if !r.ok then (s1, None)
    else if r.got == [] && r.eof then (s1.(endOfStream := true), None)
    else
      (s1.(stats := s.stats.(bytesRead := s.stats.bytesRead + |r.got|,
                             readCount := s.stats.readCount + 1,
                             shortReadCount := s.stats.shortReadCount + if |r.got| < s.bufferSize then 1 else 0),
           endOfStream := s.endOfStream || r.eof,
           logicalPosition := s.logicalPosition + |r.got|),
       Some(r.got))
  }

  function ReadChunkMemory(s: StreamState): (StreamState, Option<bytes>)
    requires ValidState(s)
  {
    if s.memoryPosition >= |s.memory| then (s.(endOfStream := true), None)
    else
      var n := Min(|s.memory| - s.memoryPosition, s.bufferSize);
      (s.(memoryPosition := s.memoryPosition + n,
          logicalPosition := s.logicalPosition + n,
          stats := s.stats.(bytesRead := s.stats.bytesRead + n, readCount := s.stats.readCount + 1)),
       Some(s.memory[s.memoryPosition..s.memoryPosition + n]))
  }

  /** bc_io_stream_read_chunk: the new state and the chunk, None for false. */
  function ReadChunk(s: StreamState): (StreamState, Option<bytes>)
    requires ValidState(s)
  {
    if s.endOfStream || s.mode != ReadMode then (s, None)
    else if s.sourceType == MemorySource then ReadChunkMemory(s)
    else ReadChunkFile(s)
  }

  /** What remaining_bytes reports: a size_t subtraction, which wraps when the position is past the total size. */
  function Remaining(s: StreamState): Option<nat> {
    match s.totalSize case None => None case Some(total) => Some(BitMask.WrapSub(total, s.logicalPosition))
  }

  // ---------- as code ----------

  class BufferedStream {
    var buffer: array<byte>
    var bufferSize: nat
    var bufferUsed: nat
    var sourceType: SourceType
    var mode: Mode
    var fd: Descriptor
    var endOfStream: bool
    var memory: bytes
    var memoryPosition: nat
    var totalSize: Option<nat>
    var logicalPosition: nat
    var stats: StreamStats

    ghost predicate Valid()
      reads this, buffer, fd
    {
      && 0 < bufferSize
      && bufferUsed <= buffer.Length
      && (sourceType != MemorySource ==> buffer.Length == bufferSize)
      && (sourceType == MemorySource || mode == ReadMode ==> bufferUsed == 0)
      && memoryPosition <= |memory|
      && ValidEndpoint(fd.state)
    }

    ghost function View(): StreamState
      requires bufferUsed <= buffer.Length
      reads this, buffer, fd
    {
      StreamState(sourceType, mode, bufferSize, buffer[..bufferUsed], endOfStream, memory, memoryPosition,
                  totalSize, logicalPosition, stats, fd.state)
    }

    /**
     bc_io_stream_open_file_descriptor, after the size query. The code does not look whether the
     alignment succeeded, so it must.
     */
    constructor Open(fd: Descriptor, sourceType: SourceType, mode: Mode, requestedSize: nat, totalSize: Option<nat>)
      requires ValidEndpoint(fd.state) && BufferSizeFor(sourceType, requestedSize).Some?
      ensures Valid() && fresh(buffer) && this.fd == fd
      ensures bufferSize % 64 == 0
      ensures View() == StreamState(sourceType, mode, BufferSizeFor(sourceType, requestedSize).value,
                                    [], false, [], 0, totalSize, 0, ZeroStreamStats, fd.state)
    {
      var alignedSize := BufferSizeFor(sourceType, requestedSize).value;
      buffer := new byte[alignedSize](_ => 0);
      bufferSize, bufferUsed := alignedSize, 0;
      this.sourceType, this.mode, this.fd := sourceType, mode, fd;
      endOfStream := false;
      memory, memoryPosition := [], 0;
      this.totalSize := totalSize;
      logicalPosition := 0;
      stats := ZeroStreamStats;
    }

    /** bc_io_stream_open_memory: no buffer of its own, chunks are views of the data. */
    constructor OpenMemory(data: bytes)
      ensures Valid() && fresh(buffer) && fresh(fd)
      ensures View() == StreamState(MemorySource, ReadMode, 131072, [], false, data, 0,
                                    Some(|data|), 0, ZeroStreamStats, Endpoint([], [], [], 0))
    {
      var none := new Descriptor(Endpoint([], [], [], 0));
      buffer := new byte[0];
      bufferSize, bufferUsed := DefaultBufferSize(MemorySource), 0;
      sourceType, mode, fd := MemorySource, ReadMode, none;
      endOfStream := false;
      memory, memoryPosition := data, 0;
      totalSize := Some(|data|);
      logicalPosition := 0;
      stats := ZeroStreamStats;
    }

    method FlushBuffer() returns (ok: bool)
      requires Valid()
      modifies this, buffer, fd
      ensures Valid() && buffer == old(buffer) && fd == old(fd)
      ensures (View(), ok) == Flush(old(View()))
      ensures ok ==> bufferUsed == 0
    {
      if bufferUsed == 0 {
        return true;
      }
      var originalUsed := bufferUsed;
      ghost var pending := buffer[..originalUsed];
      var writeOk, bytesWritten := WriteAll(fd, buffer[..originalUsed]);
      var remaining := originalUsed - bytesWritten;
      forall i | 0 <= i < remaining {
        buffer[i] := buffer[bytesWritten + i];
      }
      assert buffer[..remaining] == pending[bytesWritten..];
      bufferUsed := remaining;
      if bytesWritten < originalUsed {
        stats := stats.(shortWriteCount := stats.shortWriteCount + 1);
        return false;
      }
      return writeOk;
    }

    method Append(data: bytes)
      requires Valid() && sourceType != MemorySource && mode == WriteMode && bufferUsed + |data| <= bufferSize
      modifies this, buffer
      ensures Valid() && buffer == old(buffer) && fd == old(fd)
      ensures View() == Account(old(View()).(pending := old(View()).pending + data), |data|)
    {
      ghost var pending := buffer[..bufferUsed];
      Copy(buffer, bufferUsed, data);
      bufferUsed := bufferUsed + |data|;
      assert buffer[..bufferUsed] == pending + data;
      stats := stats.(bytesWritten := stats.bytesWritten + |data|, writeCount := stats.writeCount + 1);
      logicalPosition := logicalPosition + |data|;
    }

    method Write(data: bytes) returns (ok: bool, bytesWritten: nat)
      requires Valid()
      modifies this, buffer, fd
      ensures Valid() && buffer == old(buffer) && fd == old(fd)
      ensures (View(), bytesWritten, ok) == WriteChunk(old(View()), data)
    {
      if mode != WriteMode || sourceType == MemorySource {
        return false, 0;
      }
      if |data| == 0 {
        return true, 0;
      }
      var remainingBuffer := bufferSize - bufferUsed;
      if |data| <= remainingBuffer {
        Append(data);
        return true, |data|;
      }
      if bufferUsed > 0 {
        var flushed := FlushBuffer();
        if !flushed {
          return false, 0;
        }
      }
      ok, bytesWritten := WriteWithEmptyBuffer(data);
    }

    method WriteWithEmptyBuffer(data: bytes) returns (ok: bool, bytesWritten: nat)
      requires Valid() && sourceType != MemorySource && mode == WriteMode && bufferUsed == 0
      modifies this, buffer, fd
      ensures Valid() && buffer == old(buffer) && fd == old(fd)
      ensures (View(), bytesWritten, ok) == WriteUnbuffered(old(View()), data)
    {
      if |data| >= bufferSize {
        ok, bytesWritten := WriteAll(fd, data);
        stats := stats.(bytesWritten := stats.bytesWritten + bytesWritten, writeCount := stats.writeCount + 1);
        logicalPosition := logicalPosition + bytesWritten;
        if bytesWritten < |data| {
          stats := stats.(shortWriteCount := stats.shortWriteCount + 1);
        }
        return;
      }
      assert View().pending + data == data;
      Append(data);
      return true, |data|;
    }

    method ReadFromDescriptor() returns (chunk: Option<bytes>)
      requires Valid() && sourceType != MemorySource && mode == ReadMode
      modifies this, buffer, fd
      ensures Valid() && buffer == old(buffer) && fd == old(fd)
      ensures (View(), chunk) == ReadChunkFile(old(View()))
    {
      var ok, bytesRead, eof := ReadAll(fd, buffer, bufferSize);
      if !ok {
        return None;
      }
      if bytesRead == 0 && eof {
        endOfStream := true;
        return None;
      }
      stats := stats.(bytesRead := stats.bytesRead + bytesRead, readCount := stats.readCount + 1);
      if bytesRead < bufferSize {
        stats := stats.(shortReadCount := stats.shortReadCount + 1);
      }
      if eof {
        endOfStream := true;
      }
      logicalPosition := logicalPosition + bytesRead;
      return Some(buffer[..bytesRead]);
    }

    method ReadFromMemory() returns (chunk: Option<bytes>)
      requires Valid() && sourceType == MemorySource
      modifies this
      ensures Valid() && buffer == old(buffer) && fd == old(fd)
      ensures (View(), chunk) == ReadChunkMemory(old(View()))
    {
      if memoryPosition >= |memory| {
        endOfStream := true;
        return None;
      }
      var remaining := |memory| - memoryPosition;
      var chunkSize := if remaining < bufferSize then remaining else bufferSize;
      chunk := Some(memory[memoryPosition..memoryPosition + chunkSize]);
      memoryPosition := memoryPosition + chunkSize;
      logicalPosition := logicalPosition + chunkSize;
      stats := stats.(bytesRead := stats.bytesRead + chunkSize, readCount := stats.readCount + 1);
    }

    method Read() returns (chunk: Option<bytes>)
      requires Valid()
      modifies this, buffer, fd
      ensures Valid() && buffer == old(buffer) && fd == old(fd)
      ensures (View(), chunk) == ReadChunk(old(View()))
    {
      if endOfStream {
        return None;
      }
      if mode != ReadMode {
        return None;
      }
      if sourceType == MemorySource {
        chunk := ReadFromMemory();
      } else {
        chunk := ReadFromDescriptor();
      }
    }

    /** bc_io_stream_close: flushes and ignores whether that succeeded. */
    method Close()
      requires Valid()
      modifies this, buffer, fd
      ensures Valid() && View() == Flush(old(View())).0
    {
      var flushed := FlushBuffer();
    }

    /** bc_io_stream_remaining_bytes. */
    method RemainingBytes() returns (ok: bool, remaining: nat)
      requires Valid()
      ensures (if ok then Some(remaining) else None) == Remaining(View())
    {
      if totalSize.None? {
        return false, 0;
      }
      return true, BitMask.WrapSub(totalSize.value, logicalPosition);
    }
  }
}
