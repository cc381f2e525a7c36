/** The Rust half of a connector's protocol state, as a function of what the host answers. */
module ConnectorStates {
  import opened Options

  datatype ErrorKind = ProtocolError | ConnectorFailed | DeliveryTooLarge | TimedOut | OtherError

  /** A running or stopped connector and the capability of the batch it last handed out. */
  datatype Conn<T(==)> = Conn(running: bool, poisoned: bool, outstanding: Option<T>)
  {
    /** Why the host may not be called, if it may not. */
    function Unusable(): Option<ErrorKind>
    {
      if poisoned || !running then Some(ConnectorFailed) else None
    }
  }

  /** What a poll of the host comes back with, once decoded. */
  datatype Polled = PollFailed(kind: ErrorKind) | Nothing | Malformed(reason: ErrorKind) | Foreign | Valid

  datatype PollOutcome = PollError(kind: ErrorKind) | Idle | Granted

  /** The new state, the outcome, and whether the host was called. `held` says that the
      delivery with the outstanding capability is still alive. */
  function PollNext<T>(s: Conn<T>, held: bool, polled: Polled): (Conn<T>, PollOutcome, bool)
  {
    if s.outstanding.Some? && held then (s, PollError(ProtocolError), false)
    else if s.Unusable().Some? then (s, PollError(s.Unusable().value), false)
    else
      match polled
      case PollFailed(kind) =>
        (if kind in {ConnectorFailed, DeliveryTooLarge, ProtocolError} then s.(poisoned := true) else s,
         PollError(kind), true)
      case Nothing => (s, Idle, true)
      case Malformed(reason) => (s.(poisoned := true), PollError(reason), true)
      case Foreign => (s.(poisoned := true), PollError(ProtocolError), true)
      case Valid => (s, Granted, true)
  }

  /** A granted delivery carries a new capability, the only one that can be acknowledged. */
  function Grant<T>(s: Conn<T>, capability: T): Conn<T>
  {
    s.(outstanding := Some(capability))
  }

  /** An acknowledgement either settles or leaves the connector unusable. */
  function AckNext<T>(s: Conn<T>, capability: T, failure: Option<ErrorKind>): (Conn<T>, Option<ErrorKind>, bool)
  {
    if s.outstanding != Some(capability) then (s, Some(ProtocolError), false)
    else if s.Unusable().Some? then (s, s.Unusable(), false)
    else if failure.Some? then (s.(poisoned := true), failure, true)
    else (s.(outstanding := None), None, true)
  }

  /** A stop attempt invalidates the outstanding capability whether or not it succeeds. */
  function StopNext<T>(s: Conn<T>, failure: Option<ErrorKind>): (Conn<T>, Option<ErrorKind>)
  {
    if !s.running then (s.(outstanding := None), None)
    else if failure.Some? then (s.(outstanding := None), failure)
    else (s.(outstanding := None, running := false), None)
  }
}
