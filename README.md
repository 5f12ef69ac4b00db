# ttytee forwarding core in Dafny

ttytee makes one serial device available as two pseudo-terminals (ptys), so two
consumer processes can read the same live stream. Freshness matters more here than
completeness. A consumer that falls behind loses data: its pty is cleared when it goes
stale, and new chunks are dropped while its backlog is at or above a high-water mark.
The other consumer is still served in the same iteration.

This project models three pieces of `src/main.rs` and proves their properties:

- **The forwarding step `new_buffer_to_client`.** It runs for one consumer. First, a
  stale endpoint is cleared: strictly more than `slave_read_timeout` has passed since
  the last good read. Then the chunk is written if the backlog is below 2048 bytes, and
  dropped otherwise. The step returns the new last good read time, or an error from a
  clear or from the backlog query.
- **The `while running` loop of `ttytee`.** It reads into one 4096-byte buffer and
  offers each non-empty read to endpoint 0 and then endpoint 1. When a step fails, that
  endpoint keeps its old timestamp. The function returns 0 when the loop ends and 1
  when the device cannot be opened.
- **The `SelfCleaningSymlink` guard.** It publishes the stable alias paths of the two
  ptys and removes them at scope exit.

Layout:

- `types.dfy` (`Types`): bytes, paths, the constants 2048 and 4096, and `Result`.
- `policy.dfy` (`Policy`): the step as a function, `Forward`. Also the step as the loop
  applies it (`Offer`), and one lemma per branch of the policy.
- `loop.dfy` (`Loop`): one loop iteration (`Step`) and a whole run (`Run`), over a
  trace of `Tick`s. Also the independence, stop and backlog-bound lemmas.
- `pty.dfy` (`Pty`): the pty pair as a class with a mutable `backlog`. The step as a
  method (`ForwardToClient`), and the loop as methods (`ServeOnce`, `Serve`) over the
  reused `array<byte>` buffer. Each is proved equal to the function above it.
- `links.dfy` (`Links`): the filesystem as a class holding a map of links, and the
  guard as a class with `Create` and `Drop`.
- `tee.dfy` (`Tee`): `ttytee` itself, covering open failure, setup panics, the two
  aliases, the loop and the teardown.

The outside world is passed in as parameters:

- A `Tick` holds what one iteration sees:
  - the running flag;
  - the clock at endpoint 0's step (`now`, an integer) and at endpoint 1's step
    (`now1`, read after endpoint 0's step and after the 500 ms sleep that follows a
    failed one);
  - how many bytes each consumer has read since the last iteration;
  - the device read (`Read(data)` or `ReadFailed`);
  - which pty calls fail, for each endpoint.
- A `Host` holds:
  - whether the device opens;
  - whether the exclusive-access, timeout and pty-allocation calls succeed;
  - the pty paths the OS assigns;
  - whether each `symlink` call fails;
  - the startup time.

The model keeps these behaviours of the code, which its doc comment ("the last recorded
time you know the client has properly read the stream", lines 140 and 144) does not
make obvious:

- **Write failure.** After a failed write the step still returns the new time: line
  165 assigns `now` before the write, and line 181 returns it.
- **Skip branch.** The step can return a reset timestamp from the skip branch only after
  a staleness clear in the same call. After a clear the backlog is empty, so that case
  cannot arise (`LossTolerance`).
- **Running flag.** The flag is checked at the top of each iteration (line 276), before
  the device read, not after the forwarding.
- **Sleep after a failed step.** When endpoint 0's step fails, the loop sleeps 500 ms
  (line 300) before endpoint 1's step, which then reads the clock again (lines 154-165).
  So endpoint 0's failure can turn endpoint 1's skip into a staleness clear
  (`Loop.FailureSleepReachesOtherEndpoint`). The endpoints are independent only for the
  same clock readings.
- **Failed alias creation.** If creating an alias fails, the engine carries on. At
  teardown, though, `drop` unwraps the failed `remove_file` and panics. The same happens
  when both aliases are configured at one path. `Tee.Lifecycle` says exactly when the
  teardown is clean.

## Model

| member | source | states |
|---|---|---|
| `Policy.Forward` | src/main.rs:146-182 | one forwarding step; the new backlog is the old backlog, empty, the old backlog plus the chunk, or the chunk alone (bytes never reordered); a returned time is the old one or now |
| `Policy.Offer` | src/main.rs:286-302 | the step as the loop applies it; the endpoint's timestamp only moves forward, from its old value to at most now |
| `Policy.StaleClearResetsEndpoint` | src/main.rs:154-162 | when strictly more than the timeout has elapsed and the calls succeed, the unread backlog is discarded, the chunk becomes the whole backlog and the result is now |
| `Policy.ElapsedEqualToTimeoutDoesNotClear` | src/main.rs:157 | when exactly the timeout has elapsed nothing is cleared, whatever fails: the old backlog is still the prefix of the new one; a chunk dropped at the mark leaves the backlog and returns the old timestamp |
| `Policy.WriteBranch` | src/main.rs:163-174 | below 2048 bytes (after any clear) exactly the chunk is appended; the result is Ok(now), even when the write fails (which appends nothing) |
| `Policy.SkipBranch` | src/main.rs:175-181 | at or above 2048 bytes on a non-stale endpoint the chunk is dropped, the backlog is unchanged and the old timestamp is returned |
| `Policy.LossTolerance` | src/main.rs:157-166 | after a staleness clear the backlog is below the mark, so a successful step always writes the fresh chunk and returns now |
| `Policy.ErrorPath` | src/main.rs:160-163 | the step fails exactly when a clear it makes fails or the backlog query fails; a failed step never writes the chunk: the backlog is emptied when the master-side clear went through and is left as it was otherwise; the loop then keeps the endpoint's previous timestamp, discarding the reset of line 159 |
| `Policy.OfferKeepsBound` | src/main.rs:164-166 | a step writes only under the mark, so the backlog stays within 2047 + 4096 bytes and grows only to under 2048 plus the chunk |
| `Policy.Drain` | src/main.rs:163 | the environment, not a source function: a consumer's read removes up to n bytes from the front of the backlog, the rest keeps its order, and the timestamp is untouched; it is what `bytes_to_read` at this line then counts |
| `Loop.Step` | src/main.rs:277-326 | one iteration keeps both timestamps non-decreasing and no later than the iteration's clock |
| `Loop.Run` | src/main.rs:276-327 | the loop until the first iteration that finds the running flag cleared; over a run both timestamps only move forward |
| `Loop.IdleTickWritesNothing` | src/main.rs:277-281 | an empty read or a read error writes nothing to either endpoint and changes no timestamp |
| `Loop.SameChunkToBoth` | src/main.rs:282-320 | when both steps of an iteration get through (no failing call, backlog under the mark after any clear), both backlogs end with exactly the bytes of that one device read and both timestamps become their step's clock |
| `Loop.FailureSleepReachesOtherEndpoint` | src/main.rs:294-320 | a concrete iteration in which endpoint 0's failed query, through the 500 ms sleep of line 300, makes endpoint 1 (2048 unread bytes, last read 700 ms earlier, 1000 ms timeout) clear and take the chunk where it would otherwise have dropped it |
| `Loop.StepIndependent0` | src/main.rs:286-302 | within one iteration endpoint 0's new backlog and timestamp depend neither on endpoint 1's state nor on endpoint 1's consumer reads, clears, query or write failures |
| `Loop.StepIndependent1` | src/main.rs:304-320 | for the same clock reading at endpoint 1's step, endpoint 1's new backlog and timestamp depend neither on endpoint 0's state nor on its consumer reads, clears, query or write failures |
| `Loop.RunIndependent0` | src/main.rs:276-327 | over two runs whose traces agree on the flag, the clock at endpoint 0's steps, device reads and endpoint 0's own reads and faults, endpoint 0 ends the same whatever endpoint 1 starts with and whatever reads, stale clears or failures it meets |
| `Loop.RunIndependent1` | src/main.rs:276-327 | the mirror, for traces that agree on the clock at endpoint 1's steps: endpoint 1's run does not depend on endpoint 0's state, consumer reads, stale clears or failures |
| `Loop.RunEndsAtStop` | src/main.rs:276-329 | the run is decided by the trace up to the first iteration that finds the flag cleared; nothing after it matters |
| `Loop.RunKeepsBound` | src/main.rs:275-327 | if consumers only remove bytes, no endpoint's backlog exceeds 2047 + 4096 bytes over a whole run |
| `Pty.PtyPair.ClearAll` | src/main.rs:160-161 | the environment: a `clear(All)` that succeeds empties the backlog; one that fails is reported and changes nothing |
| `Pty.PtyPair.BytesToRead` | src/main.rs:163 | the environment: the backlog query reports the number of unread bytes, or `QueryFailed` exactly when the OS fails the call |
| `Pty.PtyPair.Write` | src/main.rs:166 | the environment: a successful write appends the whole slice; a failed write queues nothing |
| `Pty.PtyPair.ConsumerRead` | src/main.rs:163 | the environment: the consumer takes up to n bytes from the front, oldest first, and the rest stays queued in order |
| `Pty.ForwardToClient` | src/main.rs:146-182 | the step over a pty pair and the read buffer: leaves the backlog and returns the result that `Forward` gives for `buffer[..read_len]` |
| `Pty.ServeOnce` | src/main.rs:277-326 | the loop body over the real buffer and pty pairs equals `Step` |
| `Pty.Serve` | src/main.rs:272-327 | the loop, starting both timestamps at one startup time, ends in the state `Run` gives |
| `Links.FileSystem.RemoveFile` | src/main.rs:213 | the environment: removing a path drops exactly that entry and fails only when the path is absent |
| `Links.FileSystem.Symlink` | src/main.rs:214 | the environment: the link `to -> from` is made unless `to` exists or the OS refuses, and nothing changes when it is not made |
| `Links.Created` | src/main.rs:212-226 | after creation an old entry at the alias path is gone; the alias points at the pty path exactly when the symlink call succeeded, and is absent otherwise; other paths are unchanged |
| `Links.SelfCleaningSymlink.Create` | src/main.rs:212-226 | removes any entry at `to`, tries the link, always records `to`; the filesystem afterwards is `Created` |
| `Links.SelfCleaningSymlink.Drop` | src/main.rs:229-234 | removes the recorded path and nothing else; reports a crash exactly when the path was already absent |
| `Tee.Lifecycle` | src/main.rs:269-270 | after the two guards are created and dropped in reverse order, both alias paths are gone and every other path is unchanged; teardown is clean exactly when both links were made at two different paths |
| `Tee.TtyTee` | src/main.rs:237-330 | an open failure returns 1 and touches nothing; a setup failure panics; otherwise, after the loop, the filesystem is as `Lifecycle` says, and the result is 0 on a clean teardown and a panic otherwise |

## Left out

- Opening the serial device, its baud rate and read timeout, and exclusive access (lines 245-260) are OS calls. Only whether they succeed is modelled (`Host.openOk`, `Host.setupOk`).
- Pty allocation and `name()` (lines 262-268) are OS calls. They become fresh `PtyPair`s with empty backlogs and OS-chosen names taken from `Host`.
- The running flag is an `AtomicBool` set by another thread. It becomes a boolean in each `Tick`. A trace must contain an iteration that finds the flag cleared: the model covers only runs that end.
- The consumers read concurrently. Their reads become a byte count per consumer at the start of each iteration (`Policy.Drain`, `Pty.PtyPair.ConsumerRead`).
- The wall clock becomes integers: `now` for endpoint 0's step and `now1` for endpoint 1's. One value stands for both `SystemTime::now()` calls in a step and for `elapsed()`. The `expect` panic when the clock goes backwards becomes the precondition `lastGoodRead <= now`, and along a trace the clock never goes backwards.
- Pty.ForwardToClient: ignores the count returned by a successful write. The whole slice is appended, so partial writes (only logged at line 168) are not modelled.
- A pty pair's queues become one backlog. Either successful `clear(All)` empties it, and a failed write queues nothing.
- The filesystem holds only the symbolic links, keyed by path. `remove_file` on an entry that is not a link (such as a directory) is not modelled.
- Loop.RunIndependent1: the trace supplies `now1`. The model does not require it to be at least 500 ms after `now` when endpoint 0's step failed (the sleep at line 300). So endpoint 1's independence is stated for equal clock readings, and the reading's dependence on endpoint 0 appears only in `Loop.FailureSleepReachesOtherEndpoint`.
- Logging, the other anti-hotloop sleeps (lines 280, 318, 324), command-line parsing (lines 72-95), logger setup (lines 105-124) and `main` (lines 126-132) have no effect on the modelled state, except through the clock of the next tick.
- Tee.TtyTee: releasing the ptys and the device handle at scope exit is not modelled. Nor is the abort that Rust performs if a second drop panics during unwinding; both drop failures give the single outcome `Panic`.
- The test module (lines 332-439) drives real threads, ptys and sleeps. Its leakiness scenario appears here as `Policy.StaleClearResetsEndpoint` and `Policy.SkipBranch`. Its non-existent-device test appears as the first postcondition of `Tee.TtyTee`.
