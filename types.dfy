/** Basic types and constants shared by the ttytee model. */
module Types {

  /** One octet of the serial stream. */
  newtype byte = x: int | 0 <= x < 256

  /** A filesystem path. */
  type Path = string

  /** Backlog (bytes queued, unread, on a consumer's side) below which a new chunk is still written. */
  const HighWaterMark: nat := 2048

  /** Capacity of the reusable read buffer of the forwarding loop. */
  const BufferSize: nat := 4096

  /** Milliseconds the loop sleeps after a failed step or read before it carries on. */
  const AntiHotloop: nat := 500

  /** The largest backlog the policy lets an endpoint build up by its own writes. */
  const MaxBacklog: nat := HighWaterMark - 1 + BufferSize

  /** The errors a pty call can report to the forwarding step. */
  datatype IoError = ClearFailed | QueryFailed

  datatype Result<T> = Ok(value: T) | Err(error: IoError)
}
