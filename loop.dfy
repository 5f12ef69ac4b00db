/**
 * One iteration of the forwarding loop and whole runs of it, over a trace
 * of what the outside world does at each iteration.
 */
module Loop {
  import opened Types
  import opened Policy

  /** What one blocking read of the serial device produced. */
  datatype ReadOutcome = Read(data: seq<byte>) | ReadFailed

  /**
   * The world at one iteration: the running flag as the loop sees it, the
   * clock when endpoint 0's step runs (`now`) and when endpoint 1's step
   * runs (`now1`, after endpoint 0's step and the anti-hotloop sleep that
   * follows a failed one), how many bytes each consumer has read since the
   * last iteration, the device read, and which pty calls fail for each
   * endpoint.
   */
  datatype Tick = Tick(running: bool, now: int, now1: int, drain0: nat, drain1: nat, read: ReadOutcome,
                       faults0: Faults, faults1: Faults)

  /** The loop's state for the two consumers. */
  datatype Engine = Engine(ep0: Endpoint, ep1: Endpoint)

  /** A device read never returns more than the read buffer holds. */
  predicate WellFormed(t: Tick)
  {
    t.read.Read? ==> |t.read.data| <= BufferSize
  }

  /** The clock never goes backwards, within an iteration or along the trace. */
  predicate Clocked(ticks: seq<Tick>)
  {
    (forall i :: 0 <= i < |ticks| ==> ticks[i].now <= ticks[i].now1) &&
    (forall i, j :: 0 <= i < j < |ticks| ==> ticks[i].now1 <= ticks[j].now)
  }

  predicate Behind(s: Engine, now: int)
  {
    s.ep0.lastGoodRead <= now && s.ep1.lastGoodRead <= now
  }

  /** The states of the engine the clock of every tick of the trace can be applied to. */
  predicate Timely(s: Engine, ticks: seq<Tick>)
  {
    Clocked(ticks) && forall i :: 0 <= i < |ticks| ==> Behind(s, ticks[i].now)
  }

  /** The trace ends: some iteration finds the running flag cleared. */
  predicate Stops(ticks: seq<Tick>)
  {
    exists k :: 0 <= k < |ticks| && !ticks[k].running
  }

  /**
   * One loop iteration after the running check: consumers drain, then a
   * read of n > 0 bytes is offered to endpoint 0 at `now` and then to
   * endpoint 1 at `now1`; an empty read or a read error forwards nothing.
   */
  function Step(s: Engine, t: Tick, timeout: nat): (r: Engine)
    requires Behind(s, t.now) && t.now <= t.now1
    ensures Behind(r, t.now1)
    ensures s.ep0.lastGoodRead <= r.ep0.lastGoodRead && s.ep1.lastGoodRead <= r.ep1.lastGoodRead
  {
    var d := Engine(Drain(s.ep0, t.drain0), Drain(s.ep1, t.drain1));
    match t.read
    case ReadFailed => d
    case Read(data) =>
      if |data| == 0 then d
      else Engine(Offer(d.ep0, data, timeout, t.now, t.faults0), Offer(d.ep1, data, timeout, t.now1, t.faults1))
  }

  lemma StepKeepsTimely(s: Engine, ticks: seq<Tick>, timeout: nat)
    requires |ticks| > 0 && Timely(s, ticks)
    ensures Timely(Step(s, ticks[0], timeout), ticks[1..])
  {
    var r := Step(s, ticks[0], timeout);
    forall i | 0 <= i < |ticks[1..]|
      ensures Behind(r, ticks[1..][i].now)
    {
      assert ticks[0].now1 <= ticks[i + 1].now;
    }
  }

  /** The whole loop: iterate until an iteration finds the running flag cleared. */
  function Run(s: Engine, ticks: seq<Tick>, timeout: nat): (r: Engine)
    requires Timely(s, ticks)
    ensures s.ep0.lastGoodRead <= r.ep0.lastGoodRead && s.ep1.lastGoodRead <= r.ep1.lastGoodRead
    decreases |ticks|
  {
    if ticks == [] || !ticks[0].running then s
    else
      StepKeepsTimely(s, ticks, timeout);
      Run(Step(s, ticks[0], timeout), ticks[1..], timeout)
  }

  /** An empty read or a read error changes no timestamp and writes nothing; only the consumers' reads show. */
  lemma IdleTickWritesNothing(s: Engine, t: Tick, timeout: nat)
    requires Behind(s, t.now) && t.now <= t.now1
    requires t.read.ReadFailed? || t.read.data == []
    ensures Step(s, t, timeout) == Engine(Drain(s.ep0, t.drain0), Drain(s.ep1, t.drain1))
    ensures t.drain0 == 0 && t.drain1 == 0 ==> Step(s, t, timeout) == s
  {
  }

  /** The step on `e` gets through: no call fails and the backlog is under the mark after any clear. */
  predicate Writes(e: Endpoint, timeout: nat, now: int, f: Faults)
  {
    !(Stale(e.lastGoodRead, now, timeout) && (f.masterClearFails || f.slaveClearFails)) &&
    !f.queryFails && !f.writeFails && |Cleared(e.backlog, e.lastGoodRead, now, timeout)| < HighWaterMark
  }

  /**
   * Both endpoints are offered the bytes of the same device read: when both
   * steps get through, both backlogs end with exactly those bytes and both
   * timestamps are reset to their step's clock.
   */
  lemma SameChunkToBoth(s: Engine, t: Tick, timeout: nat)
    requires Behind(s, t.now) && t.now <= t.now1 && t.read.Read? && |t.read.data| > 0
    requires Writes(Drain(s.ep0, t.drain0), timeout, t.now, t.faults0)
    requires Writes(Drain(s.ep1, t.drain1), timeout, t.now1, t.faults1)
    ensures var r := Step(s, t, timeout);
            var d0, d1 := Drain(s.ep0, t.drain0), Drain(s.ep1, t.drain1);
            r.ep0 == Endpoint(Cleared(d0.backlog, d0.lastGoodRead, t.now, timeout) + t.read.data, t.now) &&
            r.ep1 == Endpoint(Cleared(d1.backlog, d1.lastGoodRead, t.now1, timeout) + t.read.data, t.now1)
  {
  }

  /**
   * The one way endpoint 0 reaches endpoint 1: a failed step on endpoint 0
   * is followed by the anti-hotloop sleep, so endpoint 1's step runs later
   * and can find its consumer stale where it would otherwise have skipped.
   * Here endpoint 1 holds 2048 unread bytes and last read 700 ms ago, with a
   * 1000 ms timeout.
   */
  lemma FailureSleepReachesOtherEndpoint(data: seq<byte>, f1: Faults)
    requires |data| > 0 && f1 == Faults(false, false, false, false)
    ensures var s := Engine(Endpoint([], 1000), Endpoint(seq(HighWaterMark, i => 0 as byte), 300));
            var ok := Tick(true, 1000, 1000, 0, 0, Read(data), Faults(false, false, false, false), f1);
            var failed := Tick(true, 1000, 1000 + AntiHotloop, 0, 0, Read(data), Faults(false, false, true, false), f1);
            Step(s, ok, 1000).ep1 == s.ep1 &&
            Step(s, failed, 1000).ep0 == s.ep0 &&
            Step(s, failed, 1000).ep1 == Endpoint(data, 1000 + AntiHotloop)
  {
  }

  /**
   * Two ticks that differ at most in what concerns endpoint 1 (its
   * consumer's reads and its pty faults) and in the clock reading at
   * endpoint 1's step.
   */
  predicate SameFor0(t: Tick, t': Tick)
  {
    t.running == t'.running && t.now == t'.now && t.read == t'.read && t.drain0 == t'.drain0 && t.faults0 == t'.faults0
  }

  /**
   * Two ticks that differ at most in what concerns endpoint 0 (its
   * consumer's reads and its pty faults) and in the clock before endpoint
   * 1's step, not at it.
   */
  predicate SameFor1(t: Tick, t': Tick)
  {
    t.running == t'.running && t.now1 == t'.now1 && t.read == t'.read && t.drain1 == t'.drain1 && t.faults1 == t'.faults1
  }

  predicate TracesSameFor0(ticks: seq<Tick>, ticks': seq<Tick>)
  {
    |ticks| == |ticks'| && forall i :: 0 <= i < |ticks| ==> SameFor0(ticks[i], ticks'[i])
  }

  predicate TracesSameFor1(ticks: seq<Tick>, ticks': seq<Tick>)
  {
    |ticks| == |ticks'| && forall i :: 0 <= i < |ticks| ==> SameFor1(ticks[i], ticks'[i])
  }

  /**
   * Independence within one iteration: endpoint 0's new backlog and
   * timestamp depend neither on endpoint 1's state nor on endpoint 1's
   * consumer reads, clears, query or write failures.
   */
  lemma StepIndependent0(a: Endpoint, b: Endpoint, b': Endpoint, t: Tick, t': Tick, timeout: nat)
    requires Behind(Engine(a, b), t.now) && Behind(Engine(a, b'), t'.now) && SameFor0(t, t')
    requires t.now <= t.now1 && t'.now <= t'.now1
    ensures Step(Engine(a, b), t, timeout).ep0 == Step(Engine(a, b'), t', timeout).ep0
  {
  }

  /**
   * The mirror of StepIndependent0: for the same clock reading at its step,
   * endpoint 1's outcome does not depend on endpoint 0's state or failures.
   * (A failure on endpoint 0 can still delay that reading; see
   * FailureSleepReachesOtherEndpoint.)
   */
  lemma StepIndependent1(a: Endpoint, a': Endpoint, b: Endpoint, t: Tick, t': Tick, timeout: nat)
    requires Behind(Engine(a, b), t.now) && Behind(Engine(a', b), t'.now) && SameFor1(t, t')
    requires t.now <= t.now1 && t'.now <= t'.now1
    ensures Step(Engine(a, b), t, timeout).ep1 == Step(Engine(a', b), t', timeout).ep1
  {
  }

  /**
   * Independence over a whole run: whatever endpoint 1 starts with and
   * whatever happens to it along the trace (its consumer's reads, stale
   * clears, failed clears, queries or writes), endpoint 0 ends the same.
   */
  lemma {:induction false} RunIndependent0(a: Endpoint, b: Endpoint, b': Endpoint,
                                           ticks: seq<Tick>, ticks': seq<Tick>, timeout: nat)
    requires Timely(Engine(a, b), ticks) && Timely(Engine(a, b'), ticks') && TracesSameFor0(ticks, ticks')
    ensures Run(Engine(a, b), ticks, timeout).ep0 == Run(Engine(a, b'), ticks', timeout).ep0
    decreases |ticks|
  {
    if ticks != [] {
      assert SameFor0(ticks[0], ticks'[0]);
      if ticks[0].running {
        var s, s' := Step(Engine(a, b), ticks[0], timeout), Step(Engine(a, b'), ticks'[0], timeout);
        StepIndependent0(a, b, b', ticks[0], ticks'[0], timeout);
        StepKeepsTimely(Engine(a, b), ticks, timeout);
        StepKeepsTimely(Engine(a, b'), ticks', timeout);
        assert TracesSameFor0(ticks[1..], ticks'[1..]) by {
          forall i | 0 <= i < |ticks[1..]| ensures SameFor0(ticks[1..][i], ticks'[1..][i]) {
            assert SameFor0(ticks[i + 1], ticks'[i + 1]);
          }
        }
        RunIndependent0(s.ep0, s.ep1, s'.ep1, ticks[1..], ticks'[1..], timeout);
      }
    }
  }

  /**
   * The mirror of RunIndependent0: for the same clock readings at its
   * steps, endpoint 1's run does not depend on endpoint 0's.
   */
  lemma {:induction false} RunIndependent1(a: Endpoint, a': Endpoint, b: Endpoint,
                                           ticks: seq<Tick>, ticks': seq<Tick>, timeout: nat)
    requires Timely(Engine(a, b), ticks) && Timely(Engine(a', b), ticks') && TracesSameFor1(ticks, ticks')
    ensures Run(Engine(a, b), ticks, timeout).ep1 == Run(Engine(a', b), ticks', timeout).ep1
    decreases |ticks|
  {
    if ticks != [] {
      assert SameFor1(ticks[0], ticks'[0]);
      if ticks[0].running {
        var s, s' := Step(Engine(a, b), ticks[0], timeout), Step(Engine(a', b), ticks'[0], timeout);
        StepIndependent1(a, a', b, ticks[0], ticks'[0], timeout);
        StepKeepsTimely(Engine(a, b), ticks, timeout);
        StepKeepsTimely(Engine(a', b), ticks', timeout);
        assert TracesSameFor1(ticks[1..], ticks'[1..]) by {
          forall i | 0 <= i < |ticks[1..]| ensures SameFor1(ticks[1..][i], ticks'[1..][i]) {
            assert SameFor1(ticks[i + 1], ticks'[i + 1]);
          }
        }
        RunIndependent1(s.ep0, s'.ep0, s.ep1, ticks[1..], ticks'[1..], timeout);
      }
    }
  }

  /** Nothing after the first iteration that finds the flag cleared matters: the loop has returned. */
  lemma {:induction false} RunEndsAtStop(s: Engine, ticks: seq<Tick>, k: nat, timeout: nat)
    requires Timely(s, ticks) && k < |ticks| && !ticks[k].running
    ensures Timely(s, ticks[..k + 1])
    ensures Run(s, ticks, timeout) == Run(s, ticks[..k + 1], timeout)
    decreases k
  {
    assert ticks[..k + 1][0] == ticks[0];
    if k > 0 && ticks[0].running {
      StepKeepsTimely(s, ticks, timeout);
      StepKeepsTimely(s, ticks[..k + 1], timeout);
      assert ticks[..k + 1][1..] == ticks[1..][..k];
      RunEndsAtStop(Step(s, ticks[0], timeout), ticks[1..], k - 1, timeout);
    }
  }

  /**
   * Backlog bound: if the consumers only ever remove bytes, no endpoint's
   * backlog ever exceeds HighWaterMark - 1 + BufferSize.
   */
  lemma {:induction false} RunKeepsBound(s: Engine, ticks: seq<Tick>, timeout: nat)
    requires Timely(s, ticks) && Bounded(s.ep0) && Bounded(s.ep1)
    requires forall i :: 0 <= i < |ticks| ==> WellFormed(ticks[i])
    ensures Bounded(Run(s, ticks, timeout).ep0) && Bounded(Run(s, ticks, timeout).ep1)
    decreases |ticks|
  {
    if ticks != [] && ticks[0].running {
      var t := ticks[0];
      assert WellFormed(t);
      var d := Engine(Drain(s.ep0, t.drain0), Drain(s.ep1, t.drain1));
      if t.read.Read? && |t.read.data| > 0 {
        OfferKeepsBound(d.ep0, t.read.data, timeout, t.now, t.faults0);
        OfferKeepsBound(d.ep1, t.read.data, timeout, t.now, t.faults1);
      }
      StepKeepsTimely(s, ticks, timeout);
      assert forall i :: 0 <= i < |ticks[1..]| ==> WellFormed(ticks[1..][i]) by {
        forall i | 0 <= i < |ticks[1..]| ensures WellFormed(ticks[1..][i]) {
          assert ticks[1..][i] == ticks[i + 1];
        }
      }
      RunKeepsBound(Step(s, t, timeout), ticks[1..], timeout);
    }
  }
}
