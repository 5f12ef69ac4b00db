/**
 * The pseudo-terminal pairs the loop writes into, the forwarding step as a
 * method over one pair, and the forwarding loop itself.
 */
module Pty {
  import opened Types
  import opened Policy
  import opened Loop

  /**
   * One pseudo-terminal pair: the engine writes on the master side, the
   * consumer reads from the slave side. `backlog` holds what was written
   * and not yet read.
   */
  class PtyPair {
    /** The OS-assigned path of the consumer-facing side. */
    const name: Path
    var backlog: seq<byte>

    /** A freshly allocated pair has nothing queued. */
    constructor (name: Path)
      ensures this.name == name && backlog == []
    {
      this.name := name;
      backlog := [];
    }

    /** Discards everything queued; `fails` is the OS refusing the call. */
    method ClearAll(fails: bool) returns (ok: bool)
      modifies this
      ensures ok == !fails
      ensures backlog == if ok then [] else old(backlog)
    {
      ok := !fails;
      if ok {
        backlog := [];
      }
    }

    /** How many bytes the consumer has left unread. */
    method BytesToRead(fails: bool) returns (r: Result<nat>)
      ensures fails <==> r.Err?
      ensures r.Err? ==> r.error == QueryFailed
      ensures r.Ok? ==> r.value == |backlog|
    {
      if fails {
        return Err(QueryFailed);
      }
      return Ok(|backlog|);
    }

    /** Writes `data` on the master side; a failed write queues nothing. */
    method Write(data: seq<byte>, fails: bool) returns (ok: bool)
      modifies this
      ensures ok == !fails
      ensures backlog == if ok then old(backlog) + data else old(backlog)
    {
      ok := !fails;
      if ok {
        backlog := backlog + data;
      }
    }

    /** The consumer process reads up to `n` bytes, oldest first. */
    method ConsumerRead(n: nat) returns (got: seq<byte>)
      modifies this
      ensures old(backlog) == got + backlog
      ensures backlog == Drain(Endpoint(old(backlog), 0), n).backlog
    {
      var k := if n <= |backlog| then n else |backlog|;
      got := backlog[..k];
      backlog := backlog[k..];
    }
  }

  /**
   * Offers `buffer[..readLen]` to one consumer: clears a stale endpoint,
   * writes below the high-water mark and drops the bytes otherwise, and
   * returns the consumer's new last good read time.
   */
  method ForwardToClient(pair: PtyPair, lastGoodRead: int, buffer: array<byte>, readLen: nat,
                         timeout: nat, now: int, f: Faults) returns (r: Result<int>)
    requires lastGoodRead <= now && readLen <= buffer.Length
    modifies pair
    ensures var fw := Forward(old(pair.backlog), lastGoodRead, buffer[..readLen], timeout, now, f);
            pair.backlog == fw.backlog && r == fw.result
  {
    var last := lastGoodRead;
    if now - last > timeout {
      last := now;
      var ok := pair.ClearAll(f.masterClearFails);
      if !ok {
        return Err(ClearFailed);
      }
      ok := pair.ClearAll(f.slaveClearFails);
      if !ok {
        return Err(ClearFailed);
      }
    }
    var left := pair.BytesToRead(f.queryFails);
    if left.Err? {
      return Err(left.error);
    }
    if left.value < HighWaterMark {
      last := now;
      var ok := pair.Write(buffer[..readLen], f.writeFails);
      if ok {
        return Ok(last);
      }
    }
    return Ok(last);
  }

  /**
   * The body of the forwarding loop after the running check: the consumers'
   * reads, the device read into `buffer`, and the offer of what was read to
   * endpoint 0 at the tick's `now` and then to endpoint 1 at its `now1`. A
   * failed step keeps that endpoint's timestamp and does not stop the other
   * endpoint's step.
   */
  method ServeOnce(pair0: PtyPair, pair1: PtyPair, buffer: array<byte>, lastGoodRead0: int, lastGoodRead1: int,
                   t: Tick, timeout: nat) returns (next0: int, next1: int)
    requires pair0 != pair1 && buffer.Length == BufferSize && WellFormed(t)
    requires lastGoodRead0 <= t.now && lastGoodRead1 <= t.now && t.now <= t.now1
    modifies pair0, pair1, buffer
    ensures Engine(Endpoint(pair0.backlog, next0), Endpoint(pair1.backlog, next1))
            == Step(Engine(Endpoint(old(pair0.backlog), lastGoodRead0), Endpoint(old(pair1.backlog), lastGoodRead1)), t, timeout)
  {
    next0, next1 := lastGoodRead0, lastGoodRead1;
    var _ := pair0.ConsumerRead(t.drain0);
    var _ := pair1.ConsumerRead(t.drain1);
    match t.read {
      case ReadFailed =>
      case Read(data) =>
        forall j | 0 <= j < |data| {
          buffer[j] := data[j];
        }
        assert buffer[..|data|] == data;
        var readLen := |data|;
        if readLen > 0 {
          var r0 := ForwardToClient(pair0, next0, buffer, readLen, timeout, t.now, t.faults0);
          if r0.Ok? {
            next0 := r0.value;
          }
          var r1 := ForwardToClient(pair1, next1, buffer, readLen, timeout, t.now1, t.faults1);
          if r1.Ok? {
            next1 := r1.value;
          }
        }
    }
  }

  /**
   * The forwarding loop: both last good read times start at `start`; each
   * iteration checks the running flag and, while it is set, runs ServeOnce
   * on the one 4096-byte buffer. Returns the two last good read times the
   * loop ends with.
   */
  method Serve(pair0: PtyPair, pair1: PtyPair, start: int, ticks: seq<Tick>, timeout: nat)
    returns (lastGoodRead0: int, lastGoodRead1: int)
    requires pair0 != pair1
    requires Stops(ticks) && Clocked(ticks)
    requires forall i :: 0 <= i < |ticks| ==> start <= ticks[i].now && WellFormed(ticks[i])
    modifies pair0, pair1
    ensures Timely(Engine(Endpoint(old(pair0.backlog), start), Endpoint(old(pair1.backlog), start)), ticks)
    ensures Engine(Endpoint(pair0.backlog, lastGoodRead0), Endpoint(pair1.backlog, lastGoodRead1))
            == Run(Engine(Endpoint(old(pair0.backlog), start), Endpoint(old(pair1.backlog), start)), ticks, timeout)
  {
    ghost var init := Engine(Endpoint(pair0.backlog, start), Endpoint(pair1.backlog, start));
    assert Timely(init, ticks);
    lastGoodRead0, lastGoodRead1 := start, start;
    var buffer := new byte[BufferSize];
    var i := 0;
    while ticks[i].running
      invariant 0 <= i <= |ticks|
      invariant exists k :: i <= k < |ticks| && !ticks[k].running
      invariant Timely(Engine(Endpoint(pair0.backlog, lastGoodRead0), Endpoint(pair1.backlog, lastGoodRead1)), ticks[i..])
      invariant Run(Engine(Endpoint(pair0.backlog, lastGoodRead0), Endpoint(pair1.backlog, lastGoodRead1)), ticks[i..], timeout)
                == Run(init, ticks, timeout)
      decreases |ticks| - i
    {
      ghost var s := Engine(Endpoint(pair0.backlog, lastGoodRead0), Endpoint(pair1.backlog, lastGoodRead1));
      assert ticks[i..][0] == ticks[i] && ticks[i..][1..] == ticks[i + 1..];
      assert Behind(s, ticks[i].now) && ticks[i].now <= ticks[i].now1;
      lastGoodRead0, lastGoodRead1 := ServeOnce(pair0, pair1, buffer, lastGoodRead0, lastGoodRead1, ticks[i], timeout);
      StepKeepsTimely(s, ticks[i..], timeout);
      i := i + 1;
    }
  }
}
