/** A running connector: capabilities are objects, compared by identity, and dead once consumed. */
module Connectors {
  import opened Options
  import opened BigEndian
  import opened WireInput
  import opened ConnectorStates
  import Checkpoints
  import Deliveries
  import ConnectorConfigs

  /** Alive while the delivery that owns it is. */
  class Capability {
    var alive: bool

    constructor ()
      ensures alive
    {
      alive := true;
    }
  }

  class Delivery {
    const capability: Capability
    const checkpoint: bytes
    var records: seq<Deliveries.Record>

    ghost function Content(): Deliveries.Delivery
      reads this
    {
      Deliveries.Delivery(checkpoint, records)
    }

    constructor (capability: Capability, content: Deliveries.Delivery)
      ensures this.capability == capability && Content() == content
    {
      this.capability := capability;
      checkpoint := content.checkpoint;
      records := content.records;
    }

    /** Moves the records out; neither the checkpoint nor the capability is affected. */
    method TakeRecords() returns (taken: seq<Deliveries.Record>)
      modifies this
      ensures taken == old(records) && records == []
    {
      taken := records;
      records := [];
    }

    /** Gives the delivery up without acknowledging it. */
    method Drop()
      modifies capability
      ensures !capability.alive
    {
      capability.alive := false;
    }
  }

  /** What the Java host answers to a poll. */
  datatype HostAnswer = Failed(kind: ErrorKind) | NoDelivery | Bytes(data: bytes)

  datatype PollResult = Refused(kind: ErrorKind) | TimeoutElapsed | Polled(delivery: Delivery)

  datatype Received = Accepted(content: Deliveries.Delivery) | Refused(kind: ErrorKind)

  class Connector {
    const rules: Rules
    const engineName: bytes
    const className: bytes
    const maxDeliveryBytes: nat
    var running: bool
    var poisoned: bool
    var outstanding: Option<Capability>

    ghost function State(): Conn<Capability>
      reads this
    {
      Conn(running, poisoned, outstanding)
    }

    /** The delivery handed out last is still alive. */
    ghost predicate Held()
      reads this, if outstanding.Some? then {outstanding.value} else {}
    {
      outstanding.Some? && outstanding.value.alive
    }

    constructor (rules: Rules, engineName: bytes, className: bytes, maxDeliveryBytes: nat)
      ensures this.rules == rules && this.engineName == engineName && this.className == className
      ensures this.maxDeliveryBytes == maxDeliveryBytes
      ensures State() == Conn(true, false, None)
    {
      this.rules, this.engineName, this.className, this.maxDeliveryBytes
        := rules, engineName, className, maxDeliveryBytes;
      running, poisoned, outstanding := true, false, None;
    }

    /** The answer is the one encoding of a legal delivery for this connector. */
    ghost predicate Carries(data: bytes, d: Deliveries.Delivery)
    {
      exists image ::
        ConnectorConfigs.DeliveryOf(rules, engineName, className, maxDeliveryBytes, d, image)
        && data == Deliveries.EncodeDelivery(rules, d)
    }

    /** How an answer of the host is understood. */
    ghost function Understood(answer: HostAnswer): ConnectorStates.Polled
    {
      match answer
      case Failed(kind) => PollFailed(kind)
      case NoDelivery => Nothing
      case Bytes(data) =>
        if |data| > maxDeliveryBytes then Malformed(DeliveryTooLarge)
        else if exists d :: Carries(data, d) then Valid
        else if exists d ::
                  Deliveries.LegalDelivery(rules, d, maxDeliveryBytes) && data == Deliveries.EncodeDelivery(rules, d)
        then Foreign
        else Malformed(ProtocolError)
    }

    /** Waits for one delivery; `called` says whether the host was asked. */
    method Poll(answer: HostAnswer) returns (r: PollResult, called: bool)
      requires ProperRules(rules) && maxDeliveryBytes <= MAX_USIZE
      modifies this
      ensures var next := PollNext(old(State()), old(Held()), Understood(answer));
        && called == next.2
        && State() == (if r.Polled? then Grant(next.0, r.delivery.capability) else next.0)
        && match r
           case Refused(kind) => next.1 == PollError(kind)
           case TimeoutElapsed => next.1 == Idle
           case Polled(d) =>
             && next.1 == Granted && fresh(d) && fresh(d.capability) && d.capability.alive
             && answer.Bytes? && Carries(answer.data, d.Content())
      ensures called <==> !old(Held()) && !old(poisoned) && old(running)
      ensures old(Held()) ==> r == PollResult.Refused(ProtocolError)
      ensures !old(Held()) && !called ==> r == PollResult.Refused(ConnectorFailed)
      ensures called && answer.Failed? ==> r == PollResult.Refused(answer.kind)
      ensures called && answer.NoDelivery? ==> r == TimeoutElapsed
      ensures called && answer.Bytes? && |answer.data| > maxDeliveryBytes ==> r == PollResult.Refused(DeliveryTooLarge)
      ensures called && answer.Bytes? && |answer.data| <= maxDeliveryBytes && !r.Polled? ==>
        r == PollResult.Refused(ProtocolError)
      ensures r.Polled? <==> called && answer.Bytes? && exists d :: Carries(answer.data, d)
      ensures running == old(running)
      ensures outstanding == if r.Polled? then Some(r.delivery.capability) else old(outstanding)
      ensures poisoned <==>
        || old(poisoned)
        || (called && answer.Bytes? && !r.Polled?)
        || (called && answer.Failed? && answer.kind in {ConnectorFailed, DeliveryTooLarge, ProtocolError})
    {
      if outstanding.Some? && outstanding.value.alive {
        return PollResult.Refused(ProtocolError), false;
      }
      if poisoned || !running {
        return PollResult.Refused(ConnectorFailed), false;
      }
      match answer {
        case Failed(kind) =>
          if kind in {ConnectorFailed, DeliveryTooLarge, ProtocolError} {
            poisoned := true;
          }
          return PollResult.Refused(kind), true;
        case NoDelivery =>
          return TimeoutElapsed, true;
        case Bytes(data) =>
          r := HandOut(data);
          return r, true;
      }
    }

    /** Hands out the delivery in `data` with a new capability, or gives the connector up. */
    method HandOut(data: bytes) returns (r: PollResult)
      requires ProperRules(rules) && maxDeliveryBytes <= MAX_USIZE
      modifies this
      ensures running == old(running)
      ensures match r
        case Refused(kind) =>
          && !(exists d :: Carries(data, d))
          && kind == (if |data| > maxDeliveryBytes then DeliveryTooLarge else ProtocolError)
          && (|| Understood(Bytes(data)) == Malformed(kind)
              || (Understood(Bytes(data)) == Foreign && kind == ProtocolError))
          && poisoned && outstanding == old(outstanding)
        case TimeoutElapsed => false
        case Polled(d) =>
          && Understood(Bytes(data)) == Valid && Carries(data, d.Content())
          && fresh(d) && fresh(d.capability) && d.capability.alive
          && poisoned == old(poisoned) && outstanding == Some(d.capability)
    {
      var received := Receive(data);
      if received.Refused? {
        poisoned := true;
        return PollResult.Refused(received.kind);
      }
      var d := Issue(received.content);
      r := Polled(d);
    }

    /** Makes a delivery with a new capability, from now on the only one that can be acknowledged. */
    method Issue(content: Deliveries.Delivery) returns (d: Delivery)
      modifies this`outstanding
      ensures fresh(d) && fresh(d.capability) && d.capability.alive && d.Content() == content
      ensures outstanding == Some(d.capability)
    {
      var capability := new Capability();
      outstanding := Some(capability);
      d := new Delivery(capability, content);
    }

    /** Decodes a delivery of whatever connector, within this one's limit. */
    method Decode(data: bytes) returns (r: Deliveries.Decoded)
      requires ProperRules(rules) && maxDeliveryBytes <= MAX_USIZE
      ensures r.Decoded? ==>
        && Deliveries.LegalDelivery(rules, r.delivery, maxDeliveryBytes)
        && data == Deliveries.EncodeDelivery(rules, r.delivery)
      ensures r.Refused? ==> forall d :: Deliveries.LegalDelivery(rules, d, maxDeliveryBytes) ==>
          data != Deliveries.EncodeDelivery(rules, d)
      ensures r.Refused? ==> (r.error.DeliveryTooLarge? <==> |data| > maxDeliveryBytes)
      ensures |data| > maxDeliveryBytes ==> r.Refused?
    {
      r := Deliveries.DecodeDelivery(rules, data, maxDeliveryBytes);
    }

    /** Decodes a delivery and checks its binding. */
    method Receive(data: bytes) returns (r: Received)
      requires ProperRules(rules) && maxDeliveryBytes <= MAX_USIZE
      ensures r.Accepted? ==> Understood(Bytes(data)) == Valid && Carries(data, r.content)
      ensures r.Refused? ==>
        || Understood(Bytes(data)) == Malformed(r.kind)
        || (Understood(Bytes(data)) == Foreign && r.kind == ProtocolError)
      ensures r.Accepted? <==> exists d :: Carries(data, d)
      ensures r.Refused? ==> r.kind == if |data| > maxDeliveryBytes then DeliveryTooLarge else ProtocolError
    {
      var decoded := Decode(data);
      if decoded.Refused? {
        NothingCarried(data);
        return Received.Refused(if decoded.error.DeliveryTooLarge? then DeliveryTooLarge else ProtocolError);
      }
      var content := decoded.delivery;
      ghost var image: Checkpoints.Image :|
        Checkpoints.Legal(rules, image)
        && content.checkpoint == Checkpoints.EncodeCheckpoint(rules, image);
      ghost var read;
      var matched;
      matched, read := Checkpoints.Matches(rules, content.checkpoint, image, engineName, className);
      CarriedIffBound(data, content, image);
      r := if matched then Accepted(content) else Received.Refused(ProtocolError);
    }

    lemma NothingCarried(data: bytes)
      requires forall d :: Deliveries.LegalDelivery(rules, d, maxDeliveryBytes) ==>
          data != Deliveries.EncodeDelivery(rules, d)
      ensures !exists d :: Carries(data, d)
    {
    }

    /** A decoded delivery is for this connector exactly when its image has this binding. */
    lemma CarriedIffBound(data: bytes, content: Deliveries.Delivery, image: Checkpoints.Image)
      requires Deliveries.LegalDelivery(rules, content, maxDeliveryBytes)
      requires data == Deliveries.EncodeDelivery(rules, content)
      requires Checkpoints.Legal(rules, image) && content.checkpoint == Checkpoints.EncodeCheckpoint(rules, image)
      ensures image.engineName == engineName && image.connectorClass == className <==> exists d :: Carries(data, d)
      ensures image.engineName == engineName && image.connectorClass == className ==> Carries(data, content)
    {
      if image.engineName == engineName && image.connectorClass == className {
        assert ConnectorConfigs.DeliveryOf(rules, engineName, className, maxDeliveryBytes, content, image);
        assert Carries(data, content);
      }
      if exists d :: Carries(data, d) {
        var d :| Carries(data, d);
        CarriedBinding(data, content, image, d);
      }
    }

    lemma CarriedBinding(data: bytes, content: Deliveries.Delivery, image: Checkpoints.Image, d: Deliveries.Delivery)
      requires Deliveries.LegalDelivery(rules, content, maxDeliveryBytes)
      requires data == Deliveries.EncodeDelivery(rules, content)
      requires Checkpoints.Legal(rules, image) && content.checkpoint == Checkpoints.EncodeCheckpoint(rules, image)
      requires Carries(data, d)
      ensures image.engineName == engineName && image.connectorClass == className
    {
      var other: Checkpoints.Image :| ConnectorConfigs.DeliveryOf(rules, engineName, className, maxDeliveryBytes, d,
                                                                  other) && data == Deliveries.EncodeDelivery(rules, d);
      Deliveries.EncodingUnique(rules, d, content, maxDeliveryBytes);
      Checkpoints.EncodingUnique(rules, image, other);
    }

    /** Consumes a delivery. `failure` is what the host's acknowledgement comes back with. */
    method Ack(d: Delivery, failure: Option<ErrorKind>) returns (error: Option<ErrorKind>, called: bool)
      modifies this, d.capability
      ensures (State(), error, called) == AckNext(old(State()), d.capability, failure)
      ensures !d.capability.alive
      ensures error == None <==> called && failure == None
      ensures called ==> error == failure
      ensures called <==> old(outstanding) == Some(d.capability) && !old(poisoned) && old(running)
      ensures !called ==>
        error == Some(if old(outstanding) == Some(d.capability) then ConnectorFailed else ProtocolError)
      ensures running == old(running)
      ensures poisoned <==> old(poisoned) || (called && failure.Some?)
      ensures outstanding == if error == None then None else old(outstanding)
    {
      d.capability.alive := false;
      if outstanding != Some(d.capability) {
        return Some(ProtocolError), false;
      }
      if poisoned || !running {
        return Some(ConnectorFailed), false;
      }
      if failure.Some? {
        poisoned := true;
        return failure, true;
      }
      outstanding := None;
      return None, true;
    }

    /** Stops the connector; whatever the host answers, nothing polled before can be acknowledged. */
    method Stop(failure: Option<ErrorKind>) returns (error: Option<ErrorKind>)
      modifies this
      ensures (State(), error) == StopNext(old(State()), failure)
      ensures error == if old(running) then failure else None
      ensures running <==> old(running) && failure.Some?
      ensures outstanding == None && poisoned == old(poisoned)
    {
      outstanding := None;
      if !running {
        return None;
      }
      if failure.Some? {
        return failure;
      }
      running := false;
      error := None;
    }
  }
}
