/** What the read and write loops amount to, for every sequence of system call outcomes. */
module StreamIoResult {
  import opened Bytes
  import opened StreamIo

  /** Outcomes the loops put up with: anything but EAGAIN and a hard error. */
  predicate Harmless(o: Outcome) {
    o.Transfer? || o.Interrupted?
  }

  /** The outcomes used up between two states of a descriptor. */
  ghost function Used(ep: Endpoint, ep': Endpoint): int {
    |ep.script| - |ep'.script|
  }

  /** The calls made were the next ones of the script, and all but the last were harmless. */
  ghost predicate Followed(ep: Endpoint, ep': Endpoint) {
    && 0 <= Used(ep, ep')
    && ep'.script == ep.script[Used(ep, ep')..]
    && forall i :: 0 <= i < Used(ep, ep') - 1 ==> Harmless(ep.script[i])
  }

  /** The loop ended on an outcome of this kind. */
  ghost predicate EndedOn(ep: Endpoint, ep': Endpoint, o: Outcome) {
    0 < Used(ep, ep') <= |ep.script| && ep.script[Used(ep, ep') - 1] == o
  }

  lemma FollowedAfterOne(ep: Endpoint, ep': Endpoint)
    requires ep.script != [] && Harmless(ep.script[0]) && Followed(Consume(ep), ep')
    ensures Followed(ep, ep')
    ensures forall o :: !Harmless(o) ==> (EndedOn(ep, ep', o) <==> EndedOn(Consume(ep), ep', o))
  {
    var rest := Consume(ep);
    var k := Used(rest, ep');
    assert ep.script[k + 1..] == rest.script[k..];
    forall i | 0 <= i < k ensures Harmless(ep.script[i]) {
      if i > 0 {
        assert ep.script[i] == rest.script[i - 1];
      }
    }
    assert k > 0 ==> ep.script[k] == rest.script[k - 1];
  }

  lemma HarmlessScriptNeverEnds(ep: Endpoint, ep': Endpoint)
    requires forall o :: o in ep.script ==> Harmless(o)
    ensures !EndedOn(ep, ep', HardError) && !EndedOn(ep, ep', WouldBlock)
  {
    if 0 < Used(ep, ep') <= |ep.script| {
      assert ep.script[Used(ep, ep') - 1] in ep.script;
    }
  }

  // ---------- writing ----------

  /** The sink receives exactly the bytes reported as written, in order; nothing else changes. */
  lemma {:induction false} WriteFullConserves(ep: Endpoint, data: bytes, total: nat)
    requires total <= |data|
    ensures var r := WriteFull(ep, data, total);
            && r.endpoint.sink == ep.sink + data[total..r.written]
            && r.endpoint.source == ep.source && r.endpoint.position == ep.position
    decreases |ep.script|, |data| - total
  {
    if total < |data| {
      var (ep', result) := SysWrite(ep, data[total..]);
      match result
      case Moved(n) =>
        WriteFullConserves(ep', data, total + n);
        var r := WriteFull(ep', data, total + n);
        assert data[total..r.written] == data[total..][..n] + data[total + n..r.written];
      case Errno(o) =>
        if o.Interrupted? {
          WriteFullConserves(ep', data, total);
        }
    }
  }

  /** A short count means EAGAIN and false means a hard error, as the last call made; and conversely. */
  lemma {:induction false} WriteFullEnds(ep: Endpoint, data: bytes, total: nat)
    requires total <= |data|
    ensures var r := WriteFull(ep, data, total);
            && Followed(ep, r.endpoint)
            && (!r.ok <==> EndedOn(ep, r.endpoint, HardError))
            && (r.ok && r.written < |data| <==> EndedOn(ep, r.endpoint, WouldBlock))
            && (!r.ok ==> r.written < |data|)
    decreases |ep.script|, |data| - total
  {
    if total < |data| {
      var r := WriteFull(ep, data, total);
      var (ep', result) := SysWrite(ep, data[total..]);
      match result
      case Moved(n) =>
        WriteFullEnds(ep', data, total + n);
        SameScript(ep', Consume(ep), r.endpoint);
        if ep.script != [] {
          FollowedAfterOne(ep, r.endpoint);
        }
      case Errno(o) =>
        if o.Interrupted? {
          WriteFullEnds(ep', data, total);
          FollowedAfterOne(ep, r.endpoint);
        }
    }
  }

  /** Following a script does not depend on the bytes moved. */
  lemma SameScript(a: Endpoint, b: Endpoint, end: Endpoint)
    requires a.script == b.script
    ensures Followed(a, end) <==> Followed(b, end)
    ensures forall o :: EndedOn(a, end, o) <==> EndedOn(b, end, o)
  {
  }

  /** Short writes and interruptions alone never make the loop give up. */
  lemma HarmlessWriteIsComplete(ep: Endpoint, data: bytes)
    requires forall o :: o in ep.script ==> Harmless(o)
    ensures var r := WriteFull(ep, data, 0); r.ok && r.written == |data|
    ensures forall o :: o in WriteFull(ep, data, 0).endpoint.script ==> Harmless(o)
  {
    WriteFullEnds(ep, data, 0);
    HarmlessScriptNeverEnds(ep, WriteFull(ep, data, 0).endpoint);
  }

  /** Decided by the outcomes to come alone: whether `count` bytes get out before EAGAIN or a hard error. */
  predicate GetsThrough(script: seq<Outcome>, count: nat) {
    if count == 0 || script == [] then true
    else
      match script[0]
      case Transfer(atMost) => GetsThrough(script[1..], count - Min(atMost, count))
      case Interrupted => GetsThrough(script[1..], count)
      case WouldBlock => false
      case HardError => false
  }

  /** A write is complete exactly when the rest gets through. */
  lemma {:induction false} WriteFullGetsThrough(ep: Endpoint, data: bytes, total: nat)
    requires total <= |data|
    ensures WriteFull(ep, data, total).written == |data| <==> GetsThrough(ep.script, |data| - total)
    decreases |ep.script|
  {
    if total < |data| {
      var (ep', result) := SysWrite(ep, data[total..]);
      if ep.script != [] {
        match result
        case Moved(n) => WriteFullGetsThrough(ep', data, total + n);
        case Errno(o) =>
          if o.Interrupted? {
            WriteFullGetsThrough(ep', data, total);
          }
      }
    }
  }

  // ---------- reading ----------

  lemma StretchesJoin(got: bytes, source: bytes, a: nat, b: nat, c: nat)
    requires a <= b <= c <= |source|
    ensures (got + source[a..b]) + source[b..c] == got + source[a..c]
  {
  }

  /** What was read is the next stretch of the source, and only the position moves. */
  lemma {:induction false} ReadFullConserves(ep: Endpoint, requested: nat, got: bytes)
    requires ValidEndpoint(ep) && |got| <= requested
    ensures var r := ReadFull(ep, requested, got);
            && r.endpoint.source == ep.source && r.endpoint.sink == ep.sink
            && ep.position <= r.endpoint.position
            && r.got == got + ep.source[ep.position..r.endpoint.position]
            && (r.eof ==> r.ok && r.endpoint.position == |ep.source| && |r.got| < requested)
    decreases |ep.script|, requested - |got|
  {
    if |got| < requested {
      var (ep', result) := SysRead(ep, requested - |got|);
      match result
      case Moved(n) =>
        var more := ep.source[ep.position..ep.position + n];
        if n > 0 {
          ReadFullConserves(ep', requested, got + more);
          var end := ReadFull(ep', requested, got + more).endpoint.position;
          StretchesJoin(got, ep.source, ep.position, ep.position + n, end);
        }
      case Errno(o) =>
        if o.Interrupted? {
          ReadFullConserves(ep', requested, got);
        }
    }
  }

  /** Stopping short of the end of the source means EAGAIN, and false means a hard error. */
  lemma {:induction false} ReadFullEnds(ep: Endpoint, requested: nat, got: bytes)
    requires ValidEndpoint(ep) && |got| <= requested
    ensures var r := ReadFull(ep, requested, got);
            && Followed(ep, r.endpoint)
            && (!r.ok <==> EndedOn(ep, r.endpoint, HardError))
            && (r.ok && !r.eof && |r.got| < requested <==> EndedOn(ep, r.endpoint, WouldBlock))
            && (!r.ok ==> |r.got| < requested)
    decreases |ep.script|, requested - |got|
  {
    if |got| < requested {
      var r := ReadFull(ep, requested, got);
      var (ep', result) := SysRead(ep, requested - |got|);
      match result
      case Moved(n) =>
        if n > 0 {
          ReadFullEnds(ep', requested, got + ep.source[ep.position..ep.position + n]);
          SameScript(ep', Consume(ep), r.endpoint);
          if ep.script != [] {
            FollowedAfterOne(ep, r.endpoint);
          }
        }
      case Errno(o) =>
        if o.Interrupted? {
          ReadFullEnds(ep', requested, got);
          FollowedAfterOne(ep, r.endpoint);
        }
    }
  }

  /** Short reads and interruptions alone: the loop reads all that was asked for, or all there is. */
  lemma HarmlessReadIsComplete(ep: Endpoint, requested: nat)
    requires ValidEndpoint(ep) && forall o :: o in ep.script ==> Harmless(o)
    ensures var r := ReadFull(ep, requested, []);
            var end := Min(ep.position + requested, |ep.source|);
            && r.ok && r.endpoint.position == end && r.got == ep.source[ep.position..end]
            && (r.eof <==> ep.position + requested > |ep.source|)
            && forall o :: o in r.endpoint.script ==> Harmless(o)
  {
    ReadFullConserves(ep, requested, []);
    ReadFullEnds(ep, requested, []);
    HarmlessScriptNeverEnds(ep, ReadFull(ep, requested, []).endpoint);
  }
}
