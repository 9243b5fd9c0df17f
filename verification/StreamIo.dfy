/**
 The retry loops around read and write (src/stream/bc_io_stream_io.c:20-78) over a file
 descriptor whose system calls may be short, interrupted, blocked or failing.
 */
module StreamIo {
  import opened Bytes

  /**
   What the next system call does: move at most so many bytes, or fail with EINTR, EAGAIN
   or any other error. A script lists the outcomes to come; once it is used up every call
   moves all it can, so that only finitely many calls make no progress.
   */
  datatype Outcome = Transfer(atMost: nat) | Interrupted | WouldBlock | HardError

  /** A descriptor: bytes written so far, and for reading the source and the position in it. */
  datatype Endpoint = Endpoint(script: seq<Outcome>, sink: bytes, source: bytes, position: nat)

  ghost predicate ValidEndpoint(ep: Endpoint) {
    ep.position <= |ep.source|
  }

  function Min(a: nat, b: nat): nat {
    if a < b then a else b
  }

  function NextOutcome(ep: Endpoint, all: nat): Outcome {
    if ep.script == [] then Transfer(all) else ep.script[0]
  }

  function Consume(ep: Endpoint): Endpoint {
    if ep.script == [] then ep else ep.(script := ep.script[1..])
  }

  datatype Result = Moved(count: nat) | Errno(outcome: Outcome)

  /** write(2): a call may move no byte at all. */
  function SysWrite(ep: Endpoint, data: bytes): (Endpoint, Result) {
    var o := NextOutcome(ep, |data|);
    if o.Transfer? then
      var n := Min(o.atMost, |data|);
      (Consume(ep).(sink := ep.sink + data[..n]), Moved(n))
    else (Consume(ep), Errno(o))
  }

  /** How many bytes a read moves: none only at the end of the source. */
  function ReadCount(atMost: nat, requested: nat, available: nat): nat {
    Min(Min(if atMost == 0 then 1 else atMost, requested), available)
  }

  /** read(2). */
  function SysRead(ep: Endpoint, requested: nat): (r: (Endpoint, Result))
    requires ValidEndpoint(ep)
    ensures ValidEndpoint(r.0) && r.0.source == ep.source && r.0.sink == ep.sink
    ensures |r.0.script| <= |ep.script| && (r.1.Errno? ==> |r.0.script| < |ep.script|)
    ensures r.1.Moved? ==> r.1.count <= requested && r.0.position == ep.position + r.1.count
  {
    var o := NextOutcome(ep, requested);
    if o.Transfer? then
      var n := ReadCount(o.atMost, requested, |ep.source| - ep.position);
      (Consume(ep).(position := ep.position + n), Moved(n))
    else (Consume(ep), Errno(o))
  }

  // ---------- the loops as functions ----------

  datatype WriteResult = WriteResult(endpoint: Endpoint, written: nat, ok: bool)

  /** bc_io_stream_io_write_full from the point where `total` bytes have been written. */
  function WriteFull(ep: Endpoint, data: bytes, total: nat): (r: WriteResult)
    requires total <= |data|
    ensures total <= r.written <= |data|
    ensures r.endpoint.source == ep.source && r.endpoint.position == ep.position
    decreases |ep.script|, |data| - total
  {
    if total == |data| then WriteResult(ep, total, true)
    else
      var (ep', result) := SysWrite(ep, data[total..]);
      match result
      case Moved(n) => WriteFull(ep', data, total + n)
      case Errno(o) =>
        if o.Interrupted? then WriteFull(ep', data, total) else WriteResult(ep', total, o.WouldBlock?)
  }

  datatype ReadResult = ReadResult(endpoint: Endpoint, got: bytes, eof: bool, ok: bool)

  /** bc_io_stream_io_read_full from the point where `got` has been read. */
  function ReadFull(ep: Endpoint, requested: nat, got: bytes): (r: ReadResult)
    requires ValidEndpoint(ep) && |got| <= requested
    ensures ValidEndpoint(r.endpoint) && |r.got| <= requested
    decreases |ep.script|, requested - |got|
  {
    if |got| == requested then ReadResult(ep, got, false, true)
    else
      var (ep', result) := SysRead(ep, requested - |got|);
      match result
      case Moved(n) =>
        if n > 0 then ReadFull(ep', requested, got + ep.source[ep.position..ep.position + n])
        else ReadResult(ep', got, true, true)
      case Errno(o) =>
        if o.Interrupted? then ReadFull(ep', requested, got) else ReadResult(ep', got, false, o.WouldBlock?)
  }

  // ---------- the loops as code ----------

  class Descriptor {
    var state: Endpoint

    constructor (state: Endpoint)
      ensures this.state == state
    {
      this.state := state;
    }

    method Write(data: bytes) returns (result: Result)
      modifies this
      ensures (state, result) == SysWrite(old(state), data)
    {
      var (next, r) := SysWrite(state, data);
      state, result := next, r;
    }

    /** Reads into `buffer` at `at`. */
    method Read(buffer: array<byte>, at: nat, requested: nat) returns (result: Result)
      requires ValidEndpoint(state) && at + requested <= buffer.Length
      modifies this, buffer
      ensures (state, result) == SysRead(old(state), requested)
      ensures result.Moved? ==>
                buffer[..at + result.count]
                   == old(buffer[..at]) + old(state).source[old(state).position..old(state).position + result.count]
      ensures !result.Moved? ==> buffer[..] == old(buffer[..])
    {
      var (next, r) := SysRead(state, requested);
      if r.Moved? {
        Copy(buffer, at, state.source[state.position..state.position + r.count]);
      }
      state, result := next, r;
    }
  }

  method WriteAll(fd: Descriptor, data: bytes) returns (ok: bool, bytesWritten: nat)
    modifies fd
    ensures WriteResult(fd.state, bytesWritten, ok) == WriteFull(old(fd.state), data, 0)
  {
    bytesWritten := 0;
    var totalWritten := 0;
    while totalWritten < |data|
      invariant totalWritten <= |data|
      invariant WriteFull(fd.state, data, totalWritten) == WriteFull(old(fd.state), data, 0)
      decreases |fd.state.script|, |data| - totalWritten
    {
      var result := fd.Write(data[totalWritten..]);
      match result
      case Moved(n) =>
        totalWritten := totalWritten + n;
      case Errno(o) =>
        if o == Interrupted {
          continue;
        }
        if o == WouldBlock {
          return true, totalWritten;
        }
        return false, totalWritten;
    }
    return true, totalWritten;
  }

  method ReadAll(fd: Descriptor, buffer: array<byte>, requested: nat)
    returns (ok: bool, bytesRead: nat, eof: bool)
    requires ValidEndpoint(fd.state) && requested <= buffer.Length
    modifies fd, buffer
    ensures bytesRead <= requested
    ensures ReadResult(fd.state, buffer[..bytesRead], eof, ok) == ReadFull(old(fd.state), requested, [])
  {
    hide SysRead;
    eof := false;
    var totalRead := 0;
    while totalRead < requested
      invariant totalRead <= requested && ValidEndpoint(fd.state) && !eof
      invariant ReadFull(fd.state, requested, buffer[..totalRead]) == ReadFull(old(fd.state), requested, [])
      decreases |fd.state.script|, requested - totalRead
    {
      var result := fd.Read(buffer, totalRead, requested - totalRead);
      match result
      case Moved(n) =>
        if n > 0 {
          totalRead := totalRead + n;
        } else {
          return true, totalRead, true;
        }
      case Errno(o) =>
        if o == Interrupted {
          continue;
        }
        if o == WouldBlock {
          return true, totalRead, false;
        }
        return false, totalRead, false;
    }
    return true, totalRead, false;
  }
}
