/** Exactly-once capture: a client that commits data and checkpoint together and then
    acknowledges, against a Java engine, with crashes, stops and failed acknowledgements at any
    point. The durable log is always the prefix of the source that the durable checkpoint names. */
module CaptureRuns {
  import opened Options
  import opened ConnectorStates

  type Record = nat
  type Source = nat -> Record

  /** The engine of one session: its committed position, the batch on offer (its end position),
      whether an acknowledgement has been decided but not settled, and whether it serves no more. */
  datatype Engine = Engine(position: nat, offer: Option<nat>, decided: bool, closed: bool)

  datatype Client = Waiting | Holding(token: nat, from: nat, to: nat) | Recorded(token: nat, from: nat, to: nat)

  datatype Session = Session(conn: Conn<nat>, engine: Engine, client: Client, nextToken: nat)

  /** `log` and `checkpoint` are durable; the session is not. */
  datatype System = System(log: seq<Record>, checkpoint: nat, session: Option<Session>)

  /** How far a poll gets. */
  datatype PollAnswer = Lost(kind: ErrorKind) | Garbled(reason: ErrorKind) | Answered

  /** How far an acknowledgement gets: not to the engine, or decided there and perhaps settled in time. */
  datatype AckAnswer = NotDelivered | DecidedOnly | Settled

  /** How the bridge answers a stop that it is asked for: it fails before the engine hears of it,
      the exchange is closed but the rest does not finish in time, or the runtime is released. */
  datatype StopAnswer = BridgeFailed | ClosedOnly | Stopped

  const I64_MAX: nat := 0x7fff_ffff_ffff_ffff

  /** The bridge takes a timeout in milliseconds only if it fits a signed 64-bit integer. */
  predicate Representable(timeout: nat)
  {
    timeout <= I64_MAX
  }

  /** Whether the engine hears of a stop at all: the timeout is checked first, then the bridge is called. */
  predicate Reaches(timeout: nat, answer: StopAnswer)
  {
    Representable(timeout) && !answer.BridgeFailed?
  }

  /** The error a stop comes back with. A refused timeout and a missed deadline look alike. */
  function StopFailure(timeout: nat, answer: StopAnswer): Option<ErrorKind>
  {
    if !Representable(timeout) then Some(TimedOut)
    else match answer
      case BridgeFailed => Some(ConnectorFailed)
      case ClosedOnly => Some(TimedOut)
      case Stopped => None
  }

  datatype Event =
    | Start
    | Offer(n: nat)
    | Settle
    | Poll(answer: PollAnswer)
    | DropDelivery
    | Commit(durable: bool)
    | Ack(ack: AckAnswer)
    | Stop(timeout: nat, stop: StopAnswer)
    | Crash

  const INITIAL := System([], 0, None)

  /** What the engine answers. A closed exchange answers with an error, never with a delivery. */
  function EnginePoll(e: Engine, answer: PollAnswer): Polled
  {
    match answer
    case Lost(kind) => PollFailed(kind)
    case Garbled(reason) => Malformed(reason)
    case Answered => if e.closed then PollFailed(ConnectorFailed) else if e.offer.Some? then Valid else Nothing
  }

  function Settling(e: Engine): Engine
  {
    if e.decided && e.offer.Some? then Engine(e.offer.value, None, false, e.closed) else e
  }

  /** The engine after it was asked to acknowledge the batch on offer. */
  function EngineAck(e: Engine, ack: AckAnswer): Engine
  {
    if ack.NotDelivered? || e.offer.None? || e.closed then e
    else if ack.DecidedOnly? then e.(decided := true)
    else Settling(e.(decided := true))
  }

  function AckFailure(e: Engine, ack: AckAnswer): Option<ErrorKind>
  {
    if ack.Settled? && e.offer.Some? && !e.closed && !e.decided then None
    else Some(if ack.DecidedOnly? then TimedOut else ConnectorFailed)
  }

  function Slice(source: Source, from: nat, to: nat): seq<Record>
    requires from <= to
  {
    seq(to - from, k requires 0 <= k < to - from => source(from + k))
  }

  /** One step. `poisoning` is the connector's rule that a failed acknowledgement makes it unusable. */
  function Step(source: Source, poisoning: bool, s: System, e: Event): System
  {
    if e.Crash? then s.(session := None)
    else if e.Start? then
      if s.session.None?
      then s.(session := Some(Session(Conn(true, false, None), Engine(s.checkpoint, None, false, false), Waiting, 0)))
      else s
    else if s.session.None? then s
    else if e.Commit? then CommitStep(source, s, e.durable)
    else if e.Stop? && StopFailure(e.timeout, e.stop).None? then s.(session := None)
    else s.(session := Some(SessionStep(poisoning, s.session.value, e)))
  }

  /** Records and checkpoint become durable together or not at all. */
  function CommitStep(source: Source, s: System, durable: bool): System
    requires s.session.Some?
  {
    var c := s.session.value.client;
    if c.Holding? && durable && c.from <= c.to then
      System(s.log + Slice(source, c.from, c.to), c.to,
             Some(s.session.value.(client := Recorded(c.token, c.from, c.to))))
    else s
  }

  function SessionStep(poisoning: bool, s: Session, e: Event): Session
  {
    match e
    case Offer(n) =>
      if s.engine.offer.None? && !s.engine.closed && n > 0
      then s.(engine := s.engine.(offer := Some(s.engine.position + n)))
      else s
    case Settle => s.(engine := Settling(s.engine))
    case Poll(answer) => PollStep(s, answer)
    case DropDelivery => if s.client.Holding? then s.(client := Waiting) else s
    case Ack(ack) => if s.client.Recorded? then AckStep(poisoning, s, ack) else s
    case Stop(timeout, stop) =>
      s.(conn := StopNext(s.conn, StopFailure(timeout, stop)).0,
         engine := if Reaches(timeout, stop) then s.engine.(closed := true) else s.engine)
    case _ => s
  }

  function PollStep(s: Session, answer: PollAnswer): Session
  {
    var held := !s.client.Waiting? && s.conn.outstanding == Some(s.client.token);
    var (conn, outcome, called) := PollNext(s.conn, held, EnginePoll(s.engine, answer));
    if outcome.Granted? && s.client.Waiting? && s.engine.offer.Some? then
      Session(Grant(conn, s.nextToken), s.engine, Holding(s.nextToken, s.engine.position, s.engine.offer.value),
              s.nextToken + 1)
    else if outcome.Granted? then s.(conn := Grant(conn, s.nextToken), nextToken := s.nextToken + 1)
    else s.(conn := conn)
  }

  function AckStep(poisoning: bool, s: Session, ack: AckAnswer): Session
    requires s.client.Recorded?
  {
    var (conn, error, called) := AckNext(s.conn, s.client.token, AckFailure(s.engine, ack));
    s.(conn := if poisoning then conn else conn.(poisoned := s.conn.poisoned),
       engine := if called then EngineAck(s.engine, ack) else s.engine,
       client := Waiting)
  }

  function Steps(source: Source, poisoning: bool, s: System, events: seq<Event>): System
  {
    if events == [] then s
    else Step(source, poisoning, Steps(source, poisoning, s, events[..|events| - 1]), events[|events| - 1])
  }

  function Run(source: Source, events: seq<Event>): System
  {
    Steps(source, true, INITIAL, events)
  }

  /** The property: the durable log is exactly the source up to the durable checkpoint. */
  predicate ExactlyOnce(source: Source, s: System)
  {
    |s.log| == s.checkpoint && forall k :: 0 <= k < |s.log| ==> s.log[k] == source(k)
  }

  /** The engine can still hand out a batch. */
  predicate Serving(s: Session)
  {
    s.conn.Unusable().None? && !s.engine.closed
  }

  predicate SessionOk(s: Session, checkpoint: nat)
  {
    && (s.conn.outstanding.Some? ==> s.conn.outstanding.value < s.nextToken)
    && (s.engine.offer.Some? ==> s.engine.position < s.engine.offer.value)
    && (s.engine.offer.None? ==> !s.engine.decided)
    && (s.client.Holding? ==> s.client.from < s.client.to && s.client.from == checkpoint)
    && (Serving(s) ==> ServingOk(s, checkpoint))
  }

  predicate ServingOk(s: Session, checkpoint: nat)
  {
    && !s.engine.decided
    && (!s.client.Waiting? ==>
            && s.conn.outstanding == Some(s.client.token)
            && s.engine.offer == Some(s.client.to)
            && s.engine.position == s.client.from)
    && (if s.client.Recorded? then checkpoint == s.client.to else checkpoint == s.engine.position)
  }

  predicate Inv(source: Source, s: System)
  {
    ExactlyOnce(source, s) && (s.session.Some? ==> SessionOk(s.session.value, s.checkpoint))
  }

  /** The engine serves and the client has a delivery of it. */
  predicate HeldByClient(s: System)
  {
    s.session.Some? && Serving(s.session.value) && !s.session.value.client.Waiting?
  }

  /** A stop attempt that the engine never hears of, while it serves and a delivery is held: the
      capability is gone, but the engine goes on offering the same batch. */
  predicate Unheard(s: System, e: Event)
  {
    e.Stop? && !Reaches(e.timeout, e.stop) && HeldByClient(s)
  }

  /** The durable log is exact, and a delivery in the client's hands continues it. */
  predicate Guarded(source: Source, s: System)
  {
    && ExactlyOnce(source, s)
    && (s.session.Some? && s.session.value.client.Holding? ==>
          s.session.value.client.from < s.session.value.client.to && s.session.value.client.from == s.checkpoint)
  }

  lemma CommitKeeps(source: Source, s: System, durable: bool)
    requires Guarded(source, s) && s.session.Some?
    ensures Guarded(source, CommitStep(source, s, durable))
    ensures Inv(source, s) ==> Inv(source, CommitStep(source, s, durable))
  {
    var c := s.session.value.client;
    if c.Holding? && durable {
      var more := Slice(source, c.from, c.to);
      assert forall k :: 0 <= k < |s.log + more| ==> (s.log + more)[k] == source(k);
    }
  }

  lemma SessionKeeps(s: Session, e: Event, checkpoint: nat)
    requires SessionOk(s, checkpoint)
    requires e.Stop? && !Reaches(e.timeout, e.stop) && Serving(s) ==> s.client.Waiting?
    ensures SessionOk(SessionStep(true, s, e), checkpoint)
  {
  }

  /** One step keeps the durable log exact and never shortens it. */
  lemma StepKeeps(source: Source, s: System, e: Event)
    requires Inv(source, s) && !Unheard(s, e)
    ensures Inv(source, Step(source, true, s, e)) && s.log <= Step(source, true, s, e).log
  {
    if s.session.Some? {
      if e.Commit? {
        CommitKeeps(source, s, e.durable);
      } else {
        SessionKeeps(s.session.value, e, s.checkpoint);
      }
    }
  }

  /** In a session whose engine missed a stop this is left of the invariant; without a further
      poll it is enough. */
  lemma GuardedKeeps(source: Source, s: System, e: Event)
    requires Guarded(source, s) && !e.Poll?
    ensures Guarded(source, Step(source, true, s, e)) && s.log <= Step(source, true, s, e).log
  {
    if s.session.Some? && e.Commit? {
      CommitKeeps(source, s, e.durable);
    }
  }

  /** The session goes on although a stop in it went unheard while a delivery was held. */
  predicate Missed(source: Source, s: System, events: seq<Event>)
  {
    events != [] &&
    var last := |events| - 1;
    var before := events[..last];
    && Steps(source, true, s, events).session.Some?
    && (Missed(source, s, before) || Unheard(Steps(source, true, s, before), events[last]))
  }

  /** The session goes on although a stop in it did not succeed. This the client can tell from
      the errors it gets. */
  predicate StopFailed(source: Source, s: System, events: seq<Event>)
  {
    events != [] &&
    var last := |events| - 1;
    && Steps(source, true, s, events).session.Some?
    && (StopFailed(source, s, events[..last]) || events[last].Stop?)
  }

  ghost predicate NoPollWhen(events: seq<Event>, p: seq<Event> -> bool)
  {
    forall k :: 0 <= k < |events| && events[k].Poll? ==> !p(events[..k])
  }

  function MissedIn(source: Source, s: System): seq<Event> -> bool
  {
    events => Missed(source, s, events)
  }

  function StopFailedIn(source: Source, s: System): seq<Event> -> bool
  {
    events => StopFailed(source, s, events)
  }

  lemma NoPollPrefix(events: seq<Event>, p: seq<Event> -> bool)
    requires NoPollWhen(events, p) && events != []
    ensures NoPollWhen(events[..|events| - 1], p)
  {
    var before := events[..|events| - 1];
    forall k | 0 <= k < |before| && before[k].Poll?
      ensures !p(before[..k])
    {
      assert before[..k] == events[..k];
    }
  }

  lemma {:induction false} StepsKeep(source: Source, s: System, events: seq<Event>)
    requires Inv(source, s) && NoPollWhen(events, MissedIn(source, s))
    ensures Guarded(source, Steps(source, true, s, events)) && s.log <= Steps(source, true, s, events).log
    ensures !Missed(source, s, events) ==> Inv(source, Steps(source, true, s, events))
  {
    if events != [] {
      var last := |events| - 1;
      var before := events[..last];
      var e, s' := events[last], Steps(source, true, s, before);
      NoPollPrefix(events, MissedIn(source, s));
      StepsKeep(source, s, before);
      if !Missed(source, s, before) && !Unheard(s', e) {
        StepKeeps(source, s', e);
      } else {
        assert e.Poll? ==> !MissedIn(source, s)(before);
        GuardedKeeps(source, s', e);
      }
    }
  }

  /** Safety over whole runs: no gap and no repeat, whatever crashes, stops, fails or is lost,
      unless the client polls on in a session whose engine missed a stop while a delivery was held. */
  lemma CapturesExactlyOnce(source: Source, events: seq<Event>)
    requires NoPollWhen(events, MissedIn(source, INITIAL))
    ensures ExactlyOnce(source, Run(source, events))
  {
    StepsKeep(source, INITIAL, events);
  }

  lemma {:induction false} MissedIsFailed(source: Source, s: System, events: seq<Event>)
    requires Missed(source, s, events)
    ensures StopFailed(source, s, events)
  {
    var before := events[..|events| - 1];
    if Missed(source, s, before) {
      MissedIsFailed(source, s, before);
    }
  }

  /** What a client can do: after a stop that did not succeed, not poll again before a restart.
      Then capture is exactly once, whatever the timeouts and whatever the bridge answers. */
  lemma RestartAfterFailedStop(source: Source, events: seq<Event>)
    requires NoPollWhen(events, StopFailedIn(source, INITIAL))
    ensures ExactlyOnce(source, Run(source, events))
  {
    forall k | 0 <= k < |events| && events[k].Poll?
      ensures !MissedIn(source, INITIAL)(events[..k])
    {
      assert !StopFailedIn(source, INITIAL)(events[..k]);
      if Missed(source, INITIAL, events[..k]) {
        MissedIsFailed(source, INITIAL, events[..k]);
      }
    }
    CapturesExactlyOnce(source, events);
  }

  /** Every stop has a representable timeout and a bridge that does not fail. */
  predicate StopsReach(events: seq<Event>)
  {
    forall k :: 0 <= k < |events| && events[k].Stop? ==> Reaches(events[k].timeout, events[k].stop)
  }

  lemma {:induction false} NothingMissed(source: Source, s: System, events: seq<Event>)
    requires StopsReach(events)
    ensures !Missed(source, s, events)
  {
    if events != [] {
      NothingMissed(source, s, events[..|events| - 1]);
    }
  }

  /** Or pass representable timeouts: unless the bridge itself fails, no stop then does harm. */
  lemma RepresentableTimeoutsSuffice(source: Source, events: seq<Event>)
    requires StopsReach(events)
    ensures ExactlyOnce(source, Run(source, events))
  {
    forall k | 0 <= k < |events| && events[k].Poll?
      ensures !MissedIn(source, INITIAL)(events[..k])
    {
      NothingMissed(source, INITIAL, events[..k]);
    }
    CapturesExactlyOnce(source, events);
  }

  /** A session whose client has recorded a batch that the engine still offers. */
  predicate AwaitingAck(s: System)
  {
    s.session.Some? && Serving(s.session.value) && s.session.value.client.Recorded?
  }

  /** Poisoning is needed: without it, from every state that awaits an acknowledgement, one
      that is decided too late lets the same batch be recorded twice. */
  lemma WithoutPoisoningRepeats(source: Source, s: System)
    requires Inv(source, s) && AwaitingAck(s)
    ensures !ExactlyOnce(source, Steps(source, false, s, [Ack(DecidedOnly), Poll(Answered), Commit(true)]))
  {
    var s1 := Step(source, false, s, Ack(DecidedOnly));
    var s2 := Step(source, false, s1, Poll(Answered));
    var s3 := Step(source, false, s2, Commit(true));
    var n := s.session.value;
    assert s2.session.value.client == Holding(n.nextToken, n.engine.position, n.engine.offer.value);
    assert Steps(source, false, s, [Ack(DecidedOnly), Poll(Answered), Commit(true)]) == s3 by {
      StepsThree(source, false, s, Ack(DecidedOnly), Poll(Answered), Commit(true));
    }
    assert |s3.log| == |s.log| + (n.engine.offer.value - n.engine.position);
  }

  lemma StepsThree(source: Source, poisoning: bool, s: System, a: Event, b: Event, c: Event)
    ensures Steps(source, poisoning, s, [a, b, c])
        == Step(source, poisoning, Step(source, poisoning, Step(source, poisoning, s, a), b), c)
  {
    assert [a, b, c][..2] == [a, b] && [a, b][..1] == [a] && [a][..0] == [];
    assert Steps(source, poisoning, s, [a]) == Step(source, poisoning, s, a);
    assert Steps(source, poisoning, s, [a, b]) == Step(source, poisoning, Steps(source, poisoning, s, [a]), b);
  }

  lemma StepsFour(source: Source, s: System, a: Event, b: Event, c: Event, d: Event)
    ensures Steps(source, true, s, [a, b, c, d]) == Step(source, true, Steps(source, true, s, [a, b, c]), d)
  {
    assert [a, b, c, d][..3] == [a, b, c];
  }

  const REPEAT: seq<Event> := [Commit(true), Ack(Settled), Poll(Answered), Commit(true)]

  /** After a stop attempt goes unheard, a client that carries on records the same batch twice. */
  lemma UnheardRepeats(source: Source, s: System, e: Event)
    requires Inv(source, s) && Unheard(s, e)
    ensures !ExactlyOnce(source, Steps(source, true, Step(source, true, s, e), REPEAT))
  {
    var s' := Step(source, true, s, e);
    var n := s.session.value;
    var s1 := Step(source, true, s', Commit(true));
    var s2 := Step(source, true, s1, Ack(Settled));
    var s3 := Step(source, true, s2, Poll(Answered));
    StepsThree(source, true, s', Commit(true), Ack(Settled), Poll(Answered));
    StepsFour(source, s', Commit(true), Ack(Settled), Poll(Answered), Commit(true));
    assert s1.checkpoint == n.client.to && |s1.log| == n.client.to;
    assert s3.session.value.client == Holding(n.nextToken, n.client.from, n.client.to);
    assert |Step(source, true, s3, Commit(true)).log| == n.client.to + (n.client.to - n.client.from);
  }

  /** Exactly when a step puts the property at risk: some continuation, in which every stop reaches
      the engine, breaks it if and only if the step is a stop whose timeout is not representable, or
      whose bridge call fails, while the engine serves and a delivery is held. */
  lemma RiskyIffUnheard(source: Source, s: System, e: Event)
    requires Inv(source, s)
    ensures e.Stop? && (e.timeout > I64_MAX || e.stop.BridgeFailed?) && HeldByClient(s) <==>
      exists more: seq<Event> ::
          StopsReach(more) && !ExactlyOnce(source, Steps(source, true, Step(source, true, s, e), more))
  {
    var s' := Step(source, true, s, e);
    if Unheard(s, e) {
      UnheardRepeats(source, s, e);
      assert StopsReach(REPEAT);
    } else {
      StepKeeps(source, s, e);
      forall more: seq<Event> | StopsReach(more)
        ensures ExactlyOnce(source, Steps(source, true, s', more))
      {
        forall k | 0 <= k < |more| && more[k].Poll?
          ensures !MissedIn(source, s')(more[..k])
        {
          NothingMissed(source, s', more[..k]);
        }
        StepsKeep(source, s', more);
      }
    }
  }

  const CAPTURE: seq<Event> := [Start, Offer(1), Poll(Answered)]

  lemma {:induction false} StepsConcat(source: Source, s: System, a: seq<Event>, b: seq<Event>)
    ensures Steps(source, true, s, a + b) == Steps(source, true, Steps(source, true, s, a), b)
  {
    if b == [] {
      assert a + b == a;
    } else {
      assert (a + b)[..|a + b| - 1] == a + b[..|b| - 1];
      StepsConcat(source, s, a, b[..|b| - 1]);
    }
  }

  /** The failing run, from the start: capture one record, stop with a timeout of more than
      `i64::MAX` milliseconds, record, find the acknowledgement refused, and poll on. */
  lemma UnrepresentableStopRepeats(source: Source, timeout: nat, answer: StopAnswer)
    requires timeout > I64_MAX
    ensures !ExactlyOnce(source, Run(source, CAPTURE + [Stop(timeout, answer)] + REPEAT))
  {
    var e := Stop(timeout, answer);
    var s := Run(source, CAPTURE);
    StepsThree(source, true, INITIAL, Start, Offer(1), Poll(Answered));
    assert s.session.value.client == Holding(0, 0, 1);
    StepsConcat(source, INITIAL, CAPTURE, [e]);
    StepsConcat(source, INITIAL, CAPTURE + [e], REPEAT);
    assert [e][..0] == [];
    assert Steps(source, true, s, [e]) == Step(source, true, s, e);
    UnheardRepeats(source, s, e);
  }

  /** Nothing is ever stuck: from every reachable state a restart captures the next record. */
  lemma RestartCaptures(source: Source, s: System)
    requires Inv(source, s)
    ensures var s' := Step(source, true, Steps(source, true, Step(source, true, s, Crash), CAPTURE), Commit(true));
      s'.checkpoint == s.checkpoint + 1 && s'.log == s.log + [source(s.checkpoint)]
  {
    StepsThree(source, true, Step(source, true, s, Crash), Start, Offer(1), Poll(Answered));
    var s' := Step(source, true, Steps(source, true, Step(source, true, s, Crash), CAPTURE), Commit(true));
    assert Slice(source, s.checkpoint, s.checkpoint + 1) == [source(s.checkpoint)];
  }

  /** The engine serves, offers the batch up to `to`, and the client is free to take it. */
  predicate Ready(s: System, to: nat)
  {
    && s.session.Some? && Serving(s.session.value) && s.session.value.client.Waiting?
    && s.session.value.engine.offer == Some(to)
  }

  const CYCLE: seq<Event> := [Poll(Answered), Commit(true), Ack(Settled)]

  /** And within a session: a batch that is polled, made durable and acknowledged in time is
      recorded whole, the engine moves past it, and the session serves on for the next one. */
  lemma CycleCaptures(source: Source, s: System, to: nat, more: nat)
    requires Inv(source, s) && Ready(s, to) && more > 0
    ensures var s' := Steps(source, true, s, CYCLE);
      && s.checkpoint < to == s'.checkpoint && |s'.log| == to
      && (forall k :: 0 <= k < to ==> s'.log[k] == source(k))
      && s'.session.Some? && s'.session.value.engine == Engine(to, None, false, false)
      && s'.session.value.client.Waiting? && s'.session.value.conn == Conn(true, false, None)
      && Ready(Step(source, true, s', Offer(more)), to + more)
  {
    StepsThree(source, true, s, Poll(Answered), Commit(true), Ack(Settled));
    var s1 := Step(source, true, s, Poll(Answered));
    var s2 := Step(source, true, s1, Commit(true));
    StepKeeps(source, s, Poll(Answered));
    StepKeeps(source, s1, Commit(true));
    StepKeeps(source, s2, Ack(Settled));
  }

  /** A failed acknowledgement, decided or not, leaves nothing to be polled before a restart. */
  lemma FailedAckSilences(source: Source, s: System, ack: AckAnswer, answer: PollAnswer)
    requires Inv(source, s) && AwaitingAck(s) && !ack.Settled?
    ensures var s' := Step(source, true, s, Ack(ack));
      && s'.session.Some? && s'.session.value.conn.poisoned
      && Step(source, true, s', Poll(answer)) == s'
  {
  }
}
