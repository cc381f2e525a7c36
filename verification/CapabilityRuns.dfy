/** Every run of any number of connectors and of a client that may do anything with the
    deliveries it owns. A capability reaches the host at most once, on the connector that granted
    it, and never after a stop attempt; a poisoned connector never reaches the host again. */
module CapabilityRuns {
  import opened Options
  import opened ConnectorStates

  type Token = nat
  type ConnectorId = nat

  /** What can be observed at the host boundary, and what the client gives up. */
  datatype Entry =
    | Issued(c: ConnectorId, t: Token)
    | PollSent(c: ConnectorId)
    | AckSent(c: ConnectorId, t: Token)
    | StopTried(c: ConnectorId)
    | Poisoned(c: ConnectorId)
    | Consumed(t: Token)

  datatype World = World(conns: map<ConnectorId, Conn<Token>>, nextConn: nat, live: set<Token>, nextToken: nat,
                         log: seq<Entry>)

  datatype Event =
    | Start
    | Poll(c: ConnectorId, polled: Polled)
    | Ack(c: ConnectorId, t: Token, ackFailure: Option<ErrorKind>)
    | Stop(c: ConnectorId, stopFailure: Option<ErrorKind>)
    | Drop(t: Token)
    | DropConnector(c: ConnectorId)

  const INITIAL := World(map[], 0, {}, 0, [])

  function PoisonEntry(c: ConnectorId, before: Conn<Token>, after: Conn<Token>): seq<Entry>
  {
    if after.poisoned && !before.poisoned then [Poisoned(c)] else []
  }

  /** One step. What the types rule out - using a delivery twice, or a connector that is gone -
      changes nothing. */
  function Step(w: World, e: Event): World
  {
    match e
    case Start => w.(conns := w.conns[w.nextConn := Conn(true, false, None)], nextConn := w.nextConn + 1)
    case Poll(c, polled) => if c in w.conns then PollStep(w, c, polled) else w
    case Ack(c, t, failure) => if c in w.conns && t in w.live then AckStep(w, c, t, failure) else w
    case Stop(c, failure) =>
      if c in w.conns then w.(conns := w.conns[c := StopNext(w.conns[c], failure).0], log := w.log + [StopTried(c)])
      else w
    case Drop(t) => if t in w.live then w.(live := w.live - {t}, log := w.log + [Consumed(t)]) else w
    case DropConnector(c) => w.(conns := map k | k in w.conns && k != c :: w.conns[k])
  }

  function PollStep(w: World, c: ConnectorId, polled: Polled): World
    requires c in w.conns
  {
    var s := w.conns[c];
    var held := s.outstanding.Some? && s.outstanding.value in w.live;
    var (s', outcome, called) := PollNext(s, held, polled);
    var log := w.log + (if called then [PollSent(c)] else []) + PoisonEntry(c, s, s');
    if outcome.Granted? then
      w.(conns := w.conns[c := Grant(s', w.nextToken)], live := w.live + {w.nextToken}, nextToken := w.nextToken + 1,
         log := log + [Issued(c, w.nextToken)])
    else
      w.(conns := w.conns[c := s'], log := log)
  }

  function AckStep(w: World, c: ConnectorId, t: Token, failure: Option<ErrorKind>): World
    requires c in w.conns
  {
    var (s', error, called) := AckNext(w.conns[c], t, failure);
    w.(conns := w.conns[c := s'], live := w.live - {t},
       log := w.log + (if called then [AckSent(c, t)] else []) + PoisonEntry(c, w.conns[c], s') + [Consumed(t)])
  }

  function Run(events: seq<Event>): World
  {
    if events == [] then INITIAL else Step(Run(events[..|events| - 1]), events[|events| - 1])
  }

  // ---- What a log may contain ---------------------------------------------

  /** Entries after which the capability `t` of `c` must not be acknowledged any more. */
  predicate Ends(x: Entry, c: ConnectorId, t: Token)
  {
    x == StopTried(c) || x == Poisoned(c) || x == Consumed(t) || (x.AckSent? && x.t == t) || (x.Issued? && x.c == c)
  }

  /** `t` was granted by `c` at `i`, and nothing has ended it since. */
  ghost predicate Grants(log: seq<Entry>, i: nat, c: ConnectorId, t: Token)
  {
    i < |log| && log[i] == Issued(c, t) && forall k :: i < k < |log| ==> !Ends(log[k], c, t)
  }

  ghost predicate Open(log: seq<Entry>, c: ConnectorId, t: Token)
  {
    exists i :: Grants(log, i, c, t)
  }

  predicate Releases(x: Entry, c: ConnectorId, t: Token)
  {
    x == StopTried(c) || x == Consumed(t) || x == AckSent(c, t)
  }

  /** The delivery granted at `i` was acknowledged or given up, or a stop was attempted since. */
  ghost predicate Released(log: seq<Entry>, i: nat)
    requires i < |log| && log[i].Issued?
  {
    exists k :: i < k < |log| && Releases(log[k], log[i].c, log[i].t)
  }

  ghost predicate Admissible(past: seq<Entry>, x: Entry)
  {
    match x
    case Issued(c, t) => forall k :: 0 <= k < |past| && past[k].Issued? ==> past[k].t != t
    case AckSent(c, t) => Open(past, c, t) && Poisoned(c) !in past
    case PollSent(c) =>
      Poisoned(c) !in past && forall k :: 0 <= k < |past| && past[k].Issued? && past[k].c == c ==> Released(past, k)
    case _ => true
  }

  ghost predicate SafeLog(log: seq<Entry>)
  {
    forall j :: 0 <= j < |log| ==> Admissible(log[..j], log[j])
  }

  // ---- The invariant ------------------------------------------------------

  ghost predicate OutstandingOk(w: World, c: ConnectorId)
    requires c in w.conns
  {
    var s := w.conns[c];
    s.outstanding.Some? ==>
      s.outstanding.value < w.nextToken
      && (s.outstanding.value in w.live && !s.poisoned ==> Open(w.log, c, s.outstanding.value))
  }

  /** Every grant is either released or is the capability its connector is waiting for. */
  ghost predicate GrantOk(w: World, i: nat)
    requires i < |w.log| && w.log[i].Issued?
  {
    var (c, t) := (w.log[i].c, w.log[i].t);
    c in w.conns ==> Released(w.log, i) || (w.conns[c].outstanding == Some(t) && t in w.live)
  }

  ghost predicate Numbered(w: World, x: Entry)
  {
    && (x.Issued? || x.AckSent? || x.Consumed? ==> x.t < w.nextToken)
    && (!x.Consumed? ==> x.c < w.nextConn)
  }

  ghost predicate Inv(w: World)
  {
    && SafeLog(w.log)
    && (forall c :: c in w.conns ==>
            c < w.nextConn && OutstandingOk(w, c) && (w.conns[c].poisoned <==> Poisoned(c) in w.log))
    && (forall t :: t in w.live ==> t < w.nextToken)
    && (forall i :: 0 <= i < |w.log| ==> Numbered(w, w.log[i]))
    && (forall i :: 0 <= i < |w.log| && w.log[i].Issued? ==> GrantOk(w, i))
  }

  lemma SafeAppend(log: seq<Entry>, x: Entry)
    requires SafeLog(log) && Admissible(log, x)
    ensures SafeLog(log + [x])
  {
    var log' := log + [x];
    forall j | 0 <= j < |log'|
      ensures Admissible(log'[..j], log'[j])
    {
      if j < |log| {
        assert log'[..j] == log[..j];
      } else {
        assert log'[..j] == log;
      }
    }
  }

  lemma OpenKept(log: seq<Entry>, x: Entry, c: ConnectorId, t: Token)
    requires Open(log, c, t) && !Ends(x, c, t)
    ensures Open(log + [x], c, t)
  {
    var i :| Grants(log, i, c, t);
    assert Grants(log + [x], i, c, t);
  }

  lemma ReleasedKept(log: seq<Entry>, x: Entry, i: nat)
    requires i < |log| && log[i].Issued? && Released(log, i)
    ensures Released(log + [x], i)
  {
    var k :| i < k < |log| && Releases(log[k], log[i].c, log[i].t);
    assert (log + [x])[k] == log[k];
  }

  /** What `w'` may change while appending one entry that issues nothing. */
  ghost predicate Appends(w: World, w': World, x: Entry)
  {
    && w'.log == w.log + [x] && w'.nextConn == w.nextConn && w'.nextToken == w.nextToken
    && w'.conns.Keys == w.conns.Keys
    && w'.live <= w.live && !x.Issued? && Admissible(w.log, x) && Numbered(w, x)
    && (forall c :: c in w.conns ==> ConnAppends(w, w', x, c))
    && (forall t :: t in w.live && t !in w'.live ==>
            x == Consumed(t) || exists c :: x == AckSent(c, t) && c in w.conns && w.conns[c].outstanding == Some(t))
  }

  ghost predicate ConnAppends(w: World, w': World, x: Entry, c: ConnectorId)
    requires c in w.conns && c in w'.conns
  {
    var s, s' := w.conns[c], w'.conns[c];
    && (s'.poisoned <==> s.poisoned || x == Poisoned(c))
    && (s'.outstanding == s.outstanding
        || (s'.outstanding == None && (x == StopTried(c) || s.outstanding.value !in w.live)))
    && (s'.outstanding.Some? && s'.outstanding.value in w'.live && !s'.poisoned ==> !Ends(x, c, s'.outstanding.value))
  }

  lemma AppendKeeps(w: World, w': World, x: Entry)
    requires Inv(w) && Appends(w, w', x)
    ensures Inv(w')
  {
    SafeAppend(w.log, x);
    forall c | c in w'.conns
      ensures OutstandingOk(w', c) && (w'.conns[c].poisoned <==> Poisoned(c) in w'.log)
    {
      assert ConnAppends(w, w', x, c) && OutstandingOk(w, c);
      var s' := w'.conns[c];
      if s'.outstanding.Some? && s'.outstanding.value in w'.live && !s'.poisoned {
        OpenKept(w.log, x, c, s'.outstanding.value);
      }
    }
    forall i | 0 <= i < |w'.log| && w'.log[i].Issued?
      ensures GrantOk(w', i)
    {
      GrantKept(w, w', x, i);
    }
  }

  lemma GrantKept(w: World, w': World, x: Entry, i: nat)
    requires Inv(w) && Appends(w, w', x) && i < |w'.log| && w'.log[i].Issued?
    ensures GrantOk(w', i)
  {
    var (c, t) := (w.log[i].c, w.log[i].t);
    if c in w.conns {
      assert GrantOk(w, i) && ConnAppends(w, w', x, c);
      if Released(w.log, i) {
        ReleasedKept(w.log, x, i);
      } else {
        assert w'.log[|w.log|] == x;
        if t !in w'.live {
          if x != Consumed(t) {
            var c' :| x == AckSent(c', t) && c' in w.conns && w.conns[c'].outstanding == Some(t);
            SameIssuer(w, c, c', t, i);
          }
          assert Releases(w'.log[|w.log|], c, t);
        } else if w'.conns[c].outstanding != Some(t) {
          assert Releases(w'.log[|w.log|], c, t);
        }
      }
    }
  }

  /** An acknowledged token was granted by the connector it is acknowledged on. */
  lemma SameIssuer(w: World, c: ConnectorId, c': ConnectorId, t: Token, i: nat)
    requires Inv(w) && i < |w.log| && w.log[i] == Issued(c, t) && Open(w.log, c', t)
    ensures c == c'
  {
    var k: nat :| Grants(w.log, k, c', t);
    if i < k {
      IssuedOnce(w.log, i, k);
    } else if k < i {
      IssuedOnce(w.log, k, i);
    }
  }

  function Sent(w: World, c: ConnectorId): World
  {
    w.(log := w.log + [PollSent(c)])
  }

  function Poison(w: World, c: ConnectorId): World
    requires c in w.conns
  {
    w.(conns := w.conns[c := w.conns[c].(poisoned := true)], log := w.log + [Poisoned(c)])
  }

  function Issue(w: World, c: ConnectorId): World
    requires c in w.conns
  {
    w.(conns := w.conns[c := Grant(w.conns[c], w.nextToken)], live := w.live + {w.nextToken},
       nextToken := w.nextToken + 1, log := w.log + [Issued(c, w.nextToken)])
  }

  /** A poll or an acknowledgement that failed leaves its connector unusable. */
  lemma PoisonKeeps(w: World, c: ConnectorId)
    requires Inv(w) && c in w.conns
    ensures Inv(Poison(w, c))
  {
    AppendKeeps(w, Poison(w, c), Poisoned(c));
  }

  lemma IssueKeeps(w: World, c: ConnectorId)
    requires Inv(w) && c in w.conns && !w.conns[c].poisoned
    requires forall k :: 0 <= k < |w.log| && w.log[k].Issued? && w.log[k].c == c ==> Released(w.log, k)
    ensures Inv(Issue(w, c))
  {
    var t, x := w.nextToken, Issued(c, w.nextToken);
    var w' := Issue(w, c);
    SafeAppend(w.log, x);
    assert w'.log[|w.log|] == x && Grants(w'.log, |w.log|, c, t);
    forall k | k in w'.conns
      ensures OutstandingOk(w', k) && (w'.conns[k].poisoned <==> Poisoned(k) in w'.log)
    {
      if k != c && w.conns[k].outstanding.Some? && w.conns[k].outstanding.value in w.live && !w.conns[k].poisoned {
        OpenKept(w.log, x, k, w.conns[k].outstanding.value);
      }
    }
    forall i | 0 <= i < |w'.log| && w'.log[i].Issued?
      ensures GrantOk(w', i)
    {
      if i < |w.log| {
        assert GrantOk(w, i);
        if Released(w.log, i) {
          ReleasedKept(w.log, x, i);
        }
      }
    }
  }

  /** Before the host is polled, every delivery of the connector has been released. */
  lemma PollAdmissible(w: World, c: ConnectorId)
    requires Inv(w) && c in w.conns && !w.conns[c].poisoned
    requires w.conns[c].outstanding.Some? ==> w.conns[c].outstanding.value !in w.live
    ensures Admissible(w.log, PollSent(c))
  {
    forall k | 0 <= k < |w.log| && w.log[k].Issued? && w.log[k].c == c
      ensures Released(w.log, k)
    {
      assert GrantOk(w, k);
    }
  }

  /** A connector whose deliveries have all been released. */
  ghost predicate Idling(w: World, c: ConnectorId)
    requires c in w.conns
  {
    !w.conns[c].poisoned && (w.conns[c].outstanding.Some? ==> w.conns[c].outstanding.value !in w.live)
  }

  lemma PollSentKeeps(w: World, c: ConnectorId)
    requires Inv(w) && c in w.conns && Idling(w, c)
    ensures Inv(Sent(w, c))
  {
    PollAdmissible(w, c);
    AppendKeeps(w, Sent(w, c), PollSent(c));
  }

  /** What a poll that reaches the host does to the world, by its outcome. */
  lemma PollShape(w: World, c: ConnectorId, polled: Polled)
    requires c in w.conns && Idling(w, c) && w.conns[c].running
    ensures PollStep(w, c, polled) ==
      if polled.Valid? then Issue(Sent(w, c), c)
      else if PollNext(w.conns[c], false, polled).0.poisoned then Poison(Sent(w, c), c)
      else Sent(w, c)
  {
    assert Sent(w, c).log + [] == Sent(w, c).log && w.conns[c := w.conns[c]] == w.conns;
  }

  lemma CalledKeeps(w: World, c: ConnectorId, polled: Polled)
    requires Inv(w) && c in w.conns && Idling(w, c) && w.conns[c].running
    ensures Inv(PollStep(w, c, polled))
  {
    PollShape(w, c, polled);
    PollSentKeeps(w, c);
    if polled.Valid? {
      PollAdmissible(Sent(w, c), c);
      IssueKeeps(Sent(w, c), c);
    } else if PollNext(w.conns[c], false, polled).0.poisoned {
      PoisonKeeps(Sent(w, c), c);
    }
  }

  lemma PollKeeps(w: World, c: ConnectorId, polled: Polled)
    requires Inv(w) && c in w.conns
    ensures Inv(PollStep(w, c, polled))
  {
    if Idling(w, c) && w.conns[c].running {
      CalledKeeps(w, c, polled);
    } else {
      assert w.log + [] + [] == w.log && w.conns[c := w.conns[c]] == w.conns;
    }
  }

  function Consume(w: World, t: Token): World
  {
    w.(live := w.live - {t}, log := w.log + [Consumed(t)])
  }

  /** The host is asked to acknowledge, and the delivery is consumed with the call. */
  function Asked(w: World, c: ConnectorId, t: Token): World
  {
    w.(live := w.live - {t}, log := w.log + [AckSent(c, t)])
  }

  function Forget(w: World, c: ConnectorId): World
    requires c in w.conns
  {
    w.(conns := w.conns[c := w.conns[c].(outstanding := None)])
  }

  lemma ConsumeKeeps(w: World, t: Token)
    requires Inv(w) && t < w.nextToken
    ensures Inv(Consume(w, t))
  {
    AppendKeeps(w, Consume(w, t), Consumed(t));
  }

  lemma AskedKeeps(w: World, c: ConnectorId, t: Token)
    requires Inv(w) && c in w.conns && t in w.live && w.conns[c].outstanding == Some(t) && !w.conns[c].poisoned
    ensures Inv(Asked(w, c, t)) && t < w.nextToken
  {
    assert OutstandingOk(w, c);
    AppendKeeps(w, Asked(w, c, t), AckSent(c, t));
  }

  /** Forgetting a capability that is gone. */
  lemma ForgetKeeps(w: World, c: ConnectorId)
    requires Inv(w) && c in w.conns && (w.conns[c].outstanding.Some? ==> w.conns[c].outstanding.value !in w.live)
    ensures Inv(Forget(w, c))
  {
    var w' := Forget(w, c);
    forall i | 0 <= i < |w'.log| && w'.log[i].Issued?
      ensures GrantOk(w', i)
    {
      assert GrantOk(w, i);
    }
    forall k | k in w'.conns
      ensures OutstandingOk(w', k)
    {
      assert k != c ==> OutstandingOk(w, k);
    }
  }

  /** What an acknowledgement that reaches the host does to the world. */
  lemma AckShape(w: World, c: ConnectorId, t: Token, failure: Option<ErrorKind>)
    requires c in w.conns && w.conns[c].outstanding == Some(t) && w.conns[c].Unusable().None?
    ensures AckStep(w, c, t, failure)
         == Consume(if failure.Some? then Poison(Asked(w, c, t), c) else Forget(Asked(w, c, t), c), t)
  {
    assert w.live - {t} - {t} == w.live - {t};
    assert w.log + [AckSent(c, t)] + [] == w.log + [AckSent(c, t)];
  }

  lemma AckKeeps(w: World, c: ConnectorId, t: Token, failure: Option<ErrorKind>)
    requires Inv(w) && c in w.conns && t in w.live
    ensures Inv(AckStep(w, c, t, failure))
  {
    if w.conns[c].outstanding == Some(t) && w.conns[c].Unusable().None? {
      AckShape(w, c, t, failure);
      AskedKeeps(w, c, t);
      if failure.Some? {
        PoisonKeeps(Asked(w, c, t), c);
        ConsumeKeeps(Poison(Asked(w, c, t), c), t);
      } else {
        ForgetKeeps(Asked(w, c, t), c);
        ConsumeKeeps(Forget(Asked(w, c, t), c), t);
      }
    } else {
      ConsumeKeeps(w, t);
      assert w.log + [] + [] + [Consumed(t)] == w.log + [Consumed(t)];
      assert w.conns[c := w.conns[c]] == w.conns;
    }
  }

  lemma StopKeeps(w: World, c: ConnectorId, failure: Option<ErrorKind>)
    requires Inv(w) && c in w.conns
    ensures Inv(w.(conns := w.conns[c := StopNext(w.conns[c], failure).0], log := w.log + [StopTried(c)]))
  {
    var w' := w.(conns := w.conns[c := StopNext(w.conns[c], failure).0], log := w.log + [StopTried(c)]);
    AppendKeeps(w, w', StopTried(c));
  }

  lemma StepKeeps(w: World, e: Event)
    requires Inv(w)
    ensures Inv(Step(w, e))
  {
    var w' := Step(w, e);
    match e
    case Poll(c, polled) => if c in w.conns { PollKeeps(w, c, polled); }
    case Ack(c, t, failure) => if c in w.conns && t in w.live { AckKeeps(w, c, t, failure); }
    case Stop(c, failure) => if c in w.conns { StopKeeps(w, c, failure); }
    case Drop(t) => if t in w.live { ConsumeKeeps(w, t); }
    case Start =>
      forall k | k in w'.conns
        ensures OutstandingOk(w', k) && (w'.conns[k].poisoned <==> Poisoned(k) in w'.log)
      {
        assert k in w.conns ==> OutstandingOk(w, k);
        assert Poisoned(w.nextConn) !in w.log;
      }
      forall i | 0 <= i < |w'.log|
        ensures Numbered(w', w'.log[i]) && (w'.log[i].Issued? ==> GrantOk(w', i))
      {
        assert Numbered(w, w.log[i]) && (w.log[i].Issued? ==> GrantOk(w, i));
      }
    case DropConnector(c) =>
      forall k | k in w'.conns
        ensures OutstandingOk(w', k)
      {
        assert OutstandingOk(w, k);
      }
      forall i | 0 <= i < |w'.log|
        ensures Numbered(w', w'.log[i]) && (w'.log[i].Issued? ==> GrantOk(w', i))
      {
        assert Numbered(w, w.log[i]) && (w.log[i].Issued? ==> GrantOk(w, i));
      }
  }

  /** Every reachable world keeps the invariant, so every log is safe. */
  lemma {:induction false} RunsAreSafe(events: seq<Event>)
    ensures Inv(Run(events)) && SafeLog(Run(events).log)
  {
    if events != [] {
      RunsAreSafe(events[..|events| - 1]);
      StepKeeps(Run(events[..|events| - 1]), events[|events| - 1]);
    }
  }

  // ---- What a safe log means ----------------------------------------------

  lemma IssuedOnce(log: seq<Entry>, i: nat, j: nat)
    requires SafeLog(log) && i < j < |log| && log[i].Issued? && log[j].Issued?
    ensures log[i].t != log[j].t
  {
    assert Admissible(log[..j], log[j]) && log[..j][i] == log[i];
  }

  /** Each capability is acknowledged at the host at most once. */
  lemma AckedAtMostOnce(events: seq<Event>, i: nat, j: nat)
    requires var log := Run(events).log; i < j < |log| && log[i].AckSent? && log[j].AckSent?
    ensures var log := Run(events).log; log[i].t != log[j].t
  {
    RunsAreSafe(events);
    var log := Run(events).log;
    if log[i].t == log[j].t {
      var (c, t) := (log[j].c, log[j].t);
      assert Admissible(log[..j], log[j]) && Admissible(log[..i], log[i]);
      var k: nat :| Grants(log[..j], k, c, t);
      var m: nat :| Grants(log[..i], m, log[i].c, t);
      assert log[..j][i] == log[i] && Ends(log[i], c, t);
      assert log[k] == log[..j][k] == Issued(c, t) && log[m] == log[..i][m] == Issued(log[i].c, t);
      if m < k {
        IssuedOnce(log, m, k);
      }
    }
  }

  /** A capability is acknowledged only on the connector that granted it, with no stop attempt,
      no poisoning and no later grant in between. */
  lemma AckedWhereGranted(events: seq<Event>, j: nat)
    requires var log := Run(events).log; j < |log| && log[j].AckSent?
    ensures var log, c, t := Run(events).log, Run(events).log[j].c, Run(events).log[j].t;
      exists i :: 0 <= i < j && log[i] == Issued(c, t)
        && forall k :: i < k < j ==>
             && log[k] != StopTried(c)
             && log[k] != Poisoned(c)
             && log[k] != Consumed(t)
             && !(log[k].Issued? && log[k].c == c)
  {
    RunsAreSafe(events);
    var log, c, t := Run(events).log, Run(events).log[j].c, Run(events).log[j].t;
    assert Admissible(log[..j], log[j]);
    var i: nat :| Grants(log[..j], i, c, t);
    forall k | i < k < j
      ensures !Ends(log[k], c, t)
    {
      assert log[..j][k] == log[k];
    }
  }

  /** After poisoning, neither a poll nor an acknowledgement reaches the host. */
  lemma PoisonedIsSilent(events: seq<Event>, i: nat, j: nat)
    requires var log := Run(events).log; i < j < |log| && log[i].Poisoned?
    ensures var log := Run(events).log; log[j] != PollSent(log[i].c) && !(log[j].AckSent? && log[j].c == log[i].c)
  {
    RunsAreSafe(events);
    var log := Run(events).log;
    assert Admissible(log[..j], log[j]) && log[..j][i] == log[i];
  }

  lemma StillHeld(log: seq<Entry>, i: nat, c: ConnectorId, t: Token)
    requires Grants(log, i, c, t)
    ensures !Released(log, i)
  {
    forall k | i < k < |log|
      ensures !Releases(log[k], c, t)
    {
      assert !Ends(log[k], c, t);
    }
  }

  /** A connector that has stopped is waiting for no acknowledgement. */
  lemma {:induction false} StoppedHoldsNothing(events: seq<Event>, c: ConnectorId)
    ensures var w := Run(events); c in w.conns && !w.conns[c].running ==> w.conns[c].outstanding.None?
  {
    if events != [] {
      StoppedHoldsNothing(events[..|events| - 1], c);
    }
  }

  lemma AckEntries(w: World, c: ConnectorId, t: Token, failure: Option<ErrorKind>)
    requires c in w.conns && t in w.live
    ensures AckSent(c, t) in Step(w, Ack(c, t, failure)).log[|w.log|..] <==> AckNext(w.conns[c], t, failure).2
  {
    var next := AckNext(w.conns[c], t, failure);
    var more := (if next.2 then [AckSent(c, t)] else []) + PoisonEntry(c, w.conns[c], next.0) + [Consumed(t)];
    assert Step(w, Ack(c, t, failure)).log[|w.log|..] == more;
    assert next.2 ==> more[0] == AckSent(c, t);
  }

  lemma PollEntries(w: World, c: ConnectorId, polled: Polled)
    requires c in w.conns
    ensures var s := w.conns[c];
      var reached := !(s.outstanding.Some? && s.outstanding.value in w.live) && !s.poisoned && s.running;
      var more := Step(w, Poll(c, polled)).log[|w.log|..];
      && (PollSent(c) in more <==> reached)
      && (Issued(c, w.nextToken) in more <==> reached && polled.Valid?)
  {
    var s := w.conns[c];
    var held := s.outstanding.Some? && s.outstanding.value in w.live;
    var next := PollNext(s, held, polled);
    var more := (if next.2 then [PollSent(c)] else []) + PoisonEntry(c, s, next.0)
                + if next.1.Granted? then [Issued(c, w.nextToken)] else [];
    assert Step(w, Poll(c, polled)).log[|w.log|..] == more;
    assert next.2 ==> more[0] == PollSent(c);
    assert next.1.Granted? ==> more[|more| - 1] == Issued(c, w.nextToken);
  }

  /** The host is polled exactly on a running connector that is not poisoned and all of whose
      deliveries are released, and a delivery is granted exactly when it then answers with one. */
  lemma PollReachesIff(events: seq<Event>, c: ConnectorId, polled: Polled)
    requires c in Run(events).conns
    ensures var w := Run(events);
      var more := Step(w, Poll(c, polled)).log[|w.log|..];
      var free := Poisoned(c) !in w.log && w.conns[c].running && AllReleased(w.log, c);
      && (PollSent(c) in more <==> free)
      && (Issued(c, w.nextToken) in more <==> free && polled.Valid?)
  {
    RunsAreSafe(events);
    var w := Run(events);
    PollEntries(w, c, polled);
    assert OutstandingOk(w, c);
    var s := w.conns[c];
    if !s.poisoned && s.outstanding.Some? && s.outstanding.value in w.live {
      var i: nat :| Grants(w.log, i, c, s.outstanding.value);
      assert !Released(w.log, i);
    }
    if !AllReleased(w.log, c) {
      var k :| 0 <= k < |w.log| && w.log[k].Issued? && w.log[k].c == c && !Released(w.log, k);
      assert GrantOk(w, k);
    }
  }

  ghost predicate AllReleased(log: seq<Entry>, c: ConnectorId)
  {
    forall k :: 0 <= k < |log| && log[k].Issued? && log[k].c == c ==> Released(log, k)
  }

  /** A live delivery can be acknowledged, and so reaches the host, exactly when its grant is
      still open on a connector that is not poisoned. */
  lemma AckReachesIffOpen(events: seq<Event>, c: ConnectorId, t: Token, failure: Option<ErrorKind>)
    requires var w := Run(events); c in w.conns && t in w.live
    ensures var w := Run(events); AckNext(w.conns[c], t, failure).2 <==> Open(w.log, c, t) && Poisoned(c) !in w.log
    ensures var w := Run(events);
      AckSent(c, t) in Step(w, Ack(c, t, failure)).log[|w.log|..] <==> Open(w.log, c, t) && Poisoned(c) !in w.log
  {
    RunsAreSafe(events);
    StoppedHoldsNothing(events, c);
    var w := Run(events);
    AckEntries(w, c, t, failure);
    assert OutstandingOk(w, c);
    if Open(w.log, c, t) {
      var i: nat :| Grants(w.log, i, c, t);
      assert GrantOk(w, i);
      StillHeld(w.log, i, c, t);
    }
  }

  /** No delivery can be acknowledged on two connectors. */
  lemma OneConnector(events: seq<Event>, c: ConnectorId, c': ConnectorId, t: Token)
    requires var w := Run(events); c in w.conns && c' in w.conns && t in w.live
    requires var w := Run(events); AckNext(w.conns[c], t, None).2 && AckNext(w.conns[c'], t, None).2
    ensures c == c'
  {
    RunsAreSafe(events);
    var w := Run(events);
    assert OutstandingOk(w, c) && OutstandingOk(w, c');
    var i: nat :| Grants(w.log, i, c, t);
    SameIssuer(w, c, c', t, i);
  }
}
