/**
 * The per-endpoint staleness and backpressure policy of ttytee, as a function
 * of the endpoint's backlog and last good read time, and the lemmas that
 * state what the policy promises.
 */
module Policy {
  import opened Types

  /** Which of the pty calls made by one forwarding step the OS makes fail. */
  datatype Faults = Faults(masterClearFails: bool, slaveClearFails: bool, queryFails: bool, writeFails: bool)

  /** What the loop keeps per consumer: the pty backlog and the last good read time. */
  datatype Endpoint = Endpoint(backlog: seq<byte>, lastGoodRead: int)

  /** The backlog after one forwarding step and what the step returns. */
  datatype Forwarded = Forwarded(backlog: seq<byte>, result: Result<int>)

  /** The consumer has not drained its endpoint in time (strictly more than the timeout has elapsed). */
  predicate Stale(lastGoodRead: int, now: int, timeout: nat)
  {
    now - lastGoodRead > timeout
  }

  /** The backlog the write decision looks at: empty after a staleness clear. */
  function Cleared(backlog: seq<byte>, lastGoodRead: int, now: int, timeout: nat): seq<byte>
  {
    if Stale(lastGoodRead, now, timeout) then [] else backlog
  }

  /**
   * One call of the forwarding step on an endpoint whose consumer has left
   * `backlog` unread: the staleness clear, the backlog query, then the write
   * of `chunk` or its drop.
   */
  function Forward(backlog: seq<byte>, lastGoodRead: int, chunk: seq<byte>, timeout: nat, now: int, f: Faults): (r: Forwarded)
    requires lastGoodRead <= now
    ensures r.backlog == backlog || r.backlog == [] || r.backlog == backlog + chunk || r.backlog == chunk
    ensures r.result.Ok? ==> r.result.value == lastGoodRead || r.result.value == now
  {
    var stale := Stale(lastGoodRead, now, timeout);
    if stale && f.masterClearFails then
      Forwarded(backlog, Err(ClearFailed))
    else if stale && f.slaveClearFails then
      Forwarded([], Err(ClearFailed))
    else
      var left := Cleared(backlog, lastGoodRead, now, timeout);
      var last := if stale then now else lastGoodRead;
      if f.queryFails then
        Forwarded(left, Err(QueryFailed))
      else if |left| < HighWaterMark then
        Forwarded(if f.writeFails then left else left + chunk, Ok(now))
      else
        Forwarded(left, Ok(last))
  }

  /** The step as the loop applies it: a failed step keeps the endpoint's previous timestamp. */
  function Offer(e: Endpoint, chunk: seq<byte>, timeout: nat, now: int, f: Faults): (r: Endpoint)
    requires e.lastGoodRead <= now
    ensures e.lastGoodRead <= r.lastGoodRead <= now
  {
    var fw := Forward(e.backlog, e.lastGoodRead, chunk, timeout, now, f);
    Endpoint(fw.backlog, if fw.result.Ok? then fw.result.value else e.lastGoodRead)
  }

  /** The consumer reads up to `n` bytes from the front of its backlog. */
  function Drain(e: Endpoint, n: nat): (r: Endpoint)
    ensures r.lastGoodRead == e.lastGoodRead
    ensures |r.backlog| == if n <= |e.backlog| then |e.backlog| - n else 0
    ensures e.backlog == e.backlog[..|e.backlog| - |r.backlog|] + r.backlog
  {
    Endpoint(e.backlog[if n <= |e.backlog| then n else |e.backlog|..], e.lastGoodRead)
  }

  predicate Bounded(e: Endpoint)
  {
    |e.backlog| <= MaxBacklog
  }

  /** Staleness clear: a stale endpoint is emptied and the fresh chunk is the whole backlog, stamped now. */
  lemma StaleClearResetsEndpoint(backlog: seq<byte>, lastGoodRead: int, chunk: seq<byte>, timeout: nat, now: int, f: Faults)
    requires lastGoodRead <= now && Stale(lastGoodRead, now, timeout)
    requires !f.masterClearFails && !f.slaveClearFails && !f.queryFails
    ensures Forward(backlog, lastGoodRead, chunk, timeout, now, f)
            == Forwarded(if f.writeFails then [] else chunk, Ok(now))
  {
  }

  /**
   * When exactly the timeout has elapsed the endpoint is not stale: nothing
   * is cleared, whatever fails, and a dropped chunk keeps the old timestamp.
   */
  lemma ElapsedEqualToTimeoutDoesNotClear(backlog: seq<byte>, lastGoodRead: int, chunk: seq<byte>, timeout: nat, f: Faults)
    ensures var r := Forward(backlog, lastGoodRead, chunk, timeout, lastGoodRead + timeout, f);
            |backlog| <= |r.backlog| && r.backlog[..|backlog|] == backlog
    ensures var r := Forward(backlog, lastGoodRead, chunk, timeout, lastGoodRead + timeout, f);
            |backlog| >= HighWaterMark && !f.queryFails ==> r == Forwarded(backlog, Ok(lastGoodRead))
  {
  }

  /**
   * Write branch: with a backlog under the high-water mark (after any clear),
   * exactly the chunk is appended when the write succeeds, and the returned
   * timestamp is now whether or not the write succeeded.
   */
  lemma WriteBranch(backlog: seq<byte>, lastGoodRead: int, chunk: seq<byte>, timeout: nat, now: int, f: Faults)
    requires lastGoodRead <= now
    requires !(Stale(lastGoodRead, now, timeout) && (f.masterClearFails || f.slaveClearFails)) && !f.queryFails
    requires |Cleared(backlog, lastGoodRead, now, timeout)| < HighWaterMark
    ensures var r := Forward(backlog, lastGoodRead, chunk, timeout, now, f);
            var left := Cleared(backlog, lastGoodRead, now, timeout);
            r.result == Ok(now) && r.backlog == (if f.writeFails then left else left + chunk)
  {
  }

  /**
   * Skip branch: with a backlog at or above the high-water mark the chunk is
   * dropped, the backlog is left as it is, and the timestamp is kept (it is
   * now only if the same call made a staleness clear).
   */
  lemma SkipBranch(backlog: seq<byte>, lastGoodRead: int, chunk: seq<byte>, timeout: nat, now: int, f: Faults)
    requires lastGoodRead <= now && !f.queryFails
    requires |backlog| >= HighWaterMark && !Stale(lastGoodRead, now, timeout)
    ensures Forward(backlog, lastGoodRead, chunk, timeout, now, f) == Forwarded(backlog, Ok(lastGoodRead))
  {
  }

  /** A staleness clear always leaves room: the stale branch never reaches the skip branch. */
  lemma LossTolerance(backlog: seq<byte>, lastGoodRead: int, chunk: seq<byte>, timeout: nat, now: int, f: Faults)
    requires lastGoodRead <= now && Stale(lastGoodRead, now, timeout)
    ensures |Cleared(backlog, lastGoodRead, now, timeout)| < HighWaterMark
    ensures var r := Forward(backlog, lastGoodRead, chunk, timeout, now, f);
            r.result.Ok? ==> r.result.value == now && r.backlog == (if f.writeFails then [] else chunk)
  {
  }

  /**
   * Error path: the step fails exactly when a clear it makes fails or the
   * backlog query fails; the loop then keeps the old timestamp, dropping
   * the reset made before the clears. A failed step never writes the chunk:
   * the backlog is emptied if the master-side clear went through, and left
   * as it was otherwise.
   */
  lemma ErrorPath(e: Endpoint, chunk: seq<byte>, timeout: nat, now: int, f: Faults)
    requires e.lastGoodRead <= now
    ensures var r := Forward(e.backlog, e.lastGoodRead, chunk, timeout, now, f);
            r.result.Err? <==> (Stale(e.lastGoodRead, now, timeout) && (f.masterClearFails || f.slaveClearFails)) || f.queryFails
    ensures Forward(e.backlog, e.lastGoodRead, chunk, timeout, now, f).result.Err? ==>
            Offer(e, chunk, timeout, now, f).lastGoodRead == e.lastGoodRead
    ensures var r := Forward(e.backlog, e.lastGoodRead, chunk, timeout, now, f);
            r.result.Err? ==>
              r.backlog == (if Stale(e.lastGoodRead, now, timeout) && !f.masterClearFails then [] else e.backlog)
  {
  }

  /** The step writes only below the mark, so its own writes keep the backlog within MaxBacklog. */
  lemma OfferKeepsBound(e: Endpoint, chunk: seq<byte>, timeout: nat, now: int, f: Faults)
    requires e.lastGoodRead <= now && Bounded(e) && |chunk| <= BufferSize
    ensures Bounded(Offer(e, chunk, timeout, now, f))
    ensures |Offer(e, chunk, timeout, now, f).backlog| <= |e.backlog| ||
            |Offer(e, chunk, timeout, now, f).backlog| < HighWaterMark + |chunk|
  {
  }
}
