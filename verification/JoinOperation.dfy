/** The equality-join operation as a durable object. Whatever the page boundaries, the failures
    and the interruptions, its committed output adds up to the join of its committed relations. */
module JoinOperation {
  import opened Options
  import opened Expressions
  import opened Relational
  import opened JoinWeights
  import opened JoinPages
  import opened JoinRuntime
  import opened EquiJoinKernel

  datatype Event = Event(row: Row, difference: Difference)

  /** An event some of whose pages are committed, and where it resumes. */
  datatype Pending = Pending(port: nat, event: Event, cursor: JoinCursor)

  datatype Resume = Resume(ordinal: nat, cursor: JoinCursor)

  /** No event in progress: everything emitted is exactly the join. */
  ghost predicate Settled(spec: JoinSpec, port: nat, own: Bag, others: Bag, counts: Counts, history: Output)
  {
    && SettledAt(spec, port, own, others, counts)
    && forall f :: Net(history, f) == WeightAt(spec.kind, spec.On(), port, own, others, f)
  }

  ghost predicate Resumable(spec: JoinSpec, port: nat, own: Bag, others: Bag, x: Row, after: nat, cursor: JoinCursor,
                            counts: Counts)
    requires port <= 1
  {
    && Midway(spec, port, own, others, x, after, cursor, counts)
    && (spec.residual.None? && cursor.resumeAfter.Some? ==>
            KeysScan(spec, port, x, KeyEdge(spec, port, x, own, after), others))
  }

  /** An event in progress: exactly the candidates before the cursor have been accounted for. */
  ghost predicate InProgress(spec: JoinSpec, port: nat, own: Bag, others: Bag, counts: Counts, history: Output,
                             e: Event, cursor: JoinCursor)
    requires port <= 1
  {
    own[e.row] + e.difference >= 0 ==>
      var after: nat := own[e.row] + e.difference;
      && Resumable(spec, port, own, others, e.row, after, cursor, counts)
      && forall f :: Net(history, f) == Expected(spec.kind, spec.On(), port, own, others, e.row, after,
                                                 DoneAt(spec, port, e.row, others, cursor), f)
  }

  lemma Begins(spec: JoinSpec, port: nat, own: Bag, others: Bag, counts: Counts, history: Output, e: Event)
    requires port <= 1 && Settled(spec, port, own, others, counts, history)
    ensures InProgress(spec, port, own, others, counts, history, e, INITIAL_CURSOR)
  {
    if own[e.row] + e.difference >= 0 {
      var after: nat := own[e.row] + e.difference;
      assert DoneAt(spec, port, e.row, others, INITIAL_CURSOR) == {};
      if spec.residual.Some? {
        CountsBegin(spec.kind, spec.On(), port, own, others, e.row, after, counts);
      }
      forall f
        ensures Net(history, f) == Expected(spec.kind, spec.On(), port, own, others, e.row, after, {}, f)
      {
        assert !Moves(port, e.row, {}, f);
      }
    }
  }

  lemma Continues(spec: JoinSpec, port: nat, own: Bag, others: Bag, counts: Counts, history: Output, e: Event,
                  after: nat, cursor: JoinCursor, out: Output, c: JoinCursor)
    requires port <= 1 && after == own[e.row] + e.difference
    requires Resumable(spec, port, own, others, e.row, after, c, counts)
    requires forall f :: Net(history, f) == Expected(spec.kind, spec.On(), port, own, others, e.row, after,
                                                     DoneAt(spec, port, e.row, others, cursor), f)
    requires Emitted(spec.kind, spec.On(), port, own, others, e.row, after, DoneAt(spec, port, e.row, others, cursor),
                     DoneAt(spec, port, e.row, others, c), out)
    ensures InProgress(spec, port, own, others, counts, history + out, e, c)
  {
    forall f
      ensures Net(history + out, f)
          == Expected(spec.kind, spec.On(), port, own, others, e.row, after, DoneAt(spec, port, e.row, others, c), f)
    {
      NetConcat(history, out, f);
    }
  }

  lemma Finishes(spec: JoinSpec, port: nat, own: Bag, others: Bag, counts: Counts, history: Output, e: Event,
                 after: nat, done: set<Row>, out: Output)
    requires port <= 1 && SettledAt(spec, port, own[e.row := after], others, counts)
    requires forall f :: Net(history, f) == Expected(spec.kind, spec.On(), port, own, others, e.row, after, done, f)
    requires Completed(spec, port, own, others, e.row, after, done, out)
    ensures Settled(spec, port, own[e.row := after], others, counts, history + out)
  {
    forall f
      ensures Net(history + out, f) == WeightAt(spec.kind, spec.On(), port, own[e.row := after], others, f)
    {
      NetConcat(history, out, f);
    }
  }

  /** The weight that an event leaves stays a 64-bit unsigned integer. */
  predicate WeightFits(own: Bag, e: Event)
  {
    0 <= own[e.row] + e.difference && (e.difference > 0 ==> own[e.row] + e.difference <= U64_MAX)
  }

  /** Nothing stands against an event from `cursor` on: its weight fits, and so does every shift still to be made. */
  ghost predicate Clear(spec: JoinSpec, port: nat, own: Bag, others: Bag, e: Event, cursor: JoinCursor)
    requires port <= 1
  {
    WeightFits(own, e) && !TooLarge(spec, port, own, others, e.row, own[e.row] + e.difference, cursor)
  }

  /** Why a page of an event is refused: exactly the limits on weights, counts and differences. */
  ghost predicate Refused(spec: JoinSpec, port: nat, own: Bag, others: Bag, e: Event, cursor: JoinCursor,
                          error: JoinError)
    requires port <= 1
  {
    match error
    case NegativeWeight => own[e.row] + e.difference < 0
    case WeightOverflow => e.difference > 0 && own[e.row] + e.difference > U64_MAX
    case MatchCountOverflow => spec.residual.Some? && Crowded(own, others)
    case OutputDifferenceOverflow =>
      WeightFits(own, e) && TooLarge(spec, port, own, others, e.row, own[e.row] + e.difference, cursor)
    case _ => false
  }

  /** Everything a page of one event can end with. */
  method EventPage(spec: JoinSpec, port: nat, own: Bag, others: Bag, counts: Counts, ghost history: Output, e: Event,
                   cursor: JoinCursor, page: Page)
    returns (r: JoinResult<(Counts, Output, Progress)>)
    requires port <= 1 && e.difference != 0 && InProgress(spec, port, own, others, counts, history, e, cursor)
    requires PageOf(spec.order, Partition(spec, port, e.row, others), cursor.resumeAfter, page)
    ensures own[e.row] + e.difference < 0 <==> r == Failure(NegativeWeight)
    ensures own[e.row] + e.difference > U64_MAX && e.difference > 0 <==> r == Failure(WeightOverflow)
    ensures r.Failure? ==> Refused(spec, port, own, others, e, cursor, r.error)
    ensures WeightFits(own, e) && (spec.residual.Some? ==> !Crowded(own, others)) ==>
      (r == Failure(OutputDifferenceOverflow)
       <==> PageTooLarge(spec, port, own, others, e.row, own[e.row] + e.difference, cursor, page))
    ensures r.Success? ==> WeightFits(own, e)
    ensures r.Success? ==> !PageTooLarge(spec, port, own, others, e.row, own[e.row] + e.difference, cursor, page)
    ensures r.Success? && r.value.2.Done? ==> Clear(spec, port, own, others, e, cursor)
    ensures r.Success? ==> FitsI64(r.value.1) && (r.value.2.More? ==> r.value.2.cursor != cursor)
    ensures r.Success? ==> forall k :: 0 <= k < |r.value.1| ==> r.value.1[k].1 != 0
    ensures r.Success? ==> forall j, k :: 0 <= j < k < |r.value.1| ==> r.value.1[j].0 != r.value.1[k].0
    ensures r.Success? ==> Ordered(port, e.row, page.entries, r.value.1)
    ensures r.Success? && r.value.2.More? ==>
      InProgress(spec, port, own, others, r.value.0, history + r.value.1, e, r.value.2.cursor)
    ensures r.Success? && r.value.2.Done? ==>
      Settled(spec, port, own[e.row := own[e.row] + e.difference], others, r.value.0, history + r.value.1)
  {
    if own[e.row] + e.difference < 0 {
      return Failure(NegativeWeight);
    }
    if e.difference > 0 && own[e.row] + e.difference > U64_MAX {
      return Failure(WeightOverflow);
    }
    ghost var after: nat := own[e.row] + e.difference;
    if spec.residual.Some? {
      r := ResidualPage(spec, port, own, others, counts, e.row, e.difference, after, cursor, page);
    } else {
      r := KeysPage(spec, port, own, others, counts, e.row, e.difference, after, cursor, page);
    }
    if r.Success? {
      if r.value.2.More? {
        PageMoves(spec, port, e.row, others, cursor, page);
        Continues(spec, port, own, others, r.value.0, history, e, after, cursor, r.value.1, r.value.2.cursor);
      } else {
        Finishes(spec, port, own, others, r.value.0, history, e, after, DoneAt(spec, port, e.row, others, cursor),
                 r.value.1);
      }
    }
  }

  /** One event applied to a relation; an inadmissible weight is read as none. */
  ghost function ApplyOne(own: Bag, e: Event): Bag
  {
    own[e.row := if own[e.row] + e.difference >= 0 then own[e.row] + e.difference else 0]
  }

  /** The relation after the events from `ordinal` up to `next`. */
  ghost function Applied(own: Bag, change: seq<Event>, ordinal: nat, next: nat): Bag
    requires ordinal <= next <= |change|
    decreases next
  {
    if next == ordinal then own else ApplyOne(Applied(own, change, ordinal, next - 1), change[next - 1])
  }

  /** Where the event at `k` starts in a run that resumes at `cursor`. */
  function StartOf(ordinal: nat, cursor: JoinCursor, k: nat): JoinCursor
  {
    if k == ordinal then cursor else INITIAL_CURSOR
  }

  /** Nothing stands against the event at `k`, applied to the relation as it then stands. */
  ghost predicate ClearAt(spec: JoinSpec, port: nat, own: Bag, others: Bag, change: seq<Event>, ordinal: nat,
                          cursor: JoinCursor, k: nat)
    requires port <= 1 && ordinal <= k < |change|
  {
    Clear(spec, port, Applied(own, change, ordinal, k), others, change[k], StartOf(ordinal, cursor, k))
  }

  /** When the event at `k` is reached there are too many distinct rows for support counts. */
  ghost predicate CrowdedAt(own: Bag, others: Bag, change: seq<Event>, ordinal: nat, k: nat)
    requires ordinal <= k < |change|
  {
    Crowded(Applied(own, change, ordinal, k), others)
  }

  /** Nothing stands against the events from `ordinal` up to `next`. */
  ghost predicate ClearTo(spec: JoinSpec, port: nat, own: Bag, others: Bag, change: seq<Event>, ordinal: nat,
                          cursor: JoinCursor, next: nat)
    requires port <= 1 && ordinal <= next <= |change|
  {
    forall k :: ordinal <= k < next ==> ClearAt(spec, port, own, others, change, ordinal, cursor, k)
  }

  /** No event of the run breaks a limit, and there are never too many distinct rows for support counts. */
  ghost predicate Unhindered(spec: JoinSpec, port: nat, own: Bag, others: Bag, change: seq<Event>, ordinal: nat,
                             cursor: JoinCursor)
    requires port <= 1 && ordinal <= |change|
  {
    && ClearTo(spec, port, own, others, change, ordinal, cursor, |change|)
    && (spec.residual.Some? ==> forall k :: ordinal <= k < |change| ==> !CrowdedAt(own, others, change, ordinal, k))
  }

  /** The bounded scans that the store offers on the relation opposite to `port`. */
  ghost predicate ScansOf(spec: JoinSpec, port: nat, others: Bag, scan: (Row, Option<Row>) -> Page)
    requires port <= 1
  {
    forall x, c :: PageOf(spec.order, Partition(spec, port, x, others), c, scan(x, c))
  }

  /** The relation of a port. */
  function Side(port: nat, left: Bag, right: Bag): Bag
  {
    if port == 0 then left else right
  }

  ghost predicate Durable(spec: JoinSpec, left: Bag, right: Bag, counts: Counts, history: Output,
                          pending: Option<Pending>)
  {
    match pending
    case None => Settled(spec, 0, left, right, counts, history)
    case Some(p) =>
      && p.port <= 1 && Side(p.port, left, right)[p.event.row] + p.event.difference >= 0
      && InProgress(spec, p.port, Side(p.port, left, right), Side(1 - p.port, left, right), counts, history, p.event,
                    p.cursor)
  }

  /** What a transaction is about to commit. */
  datatype Window = Window(own: Bag, counts: Counts, output: Output, resume: Option<Resume>)

  /** Where the caller resumes, in terms of the event that is in progress, if any. */
  ghost predicate ResumesAt(port: nat, change: seq<Event>, ordinal: nat, cursor: JoinCursor, pending: Option<Pending>)
    requires ordinal < |change|
  {
    if pending.None? then cursor == INITIAL_CURSOR else pending.value == Pending(port, change[ordinal], cursor)
  }

  /** The relation has taken exactly the events up to the resume point, which is where an event
      in progress continues; without a resume point every event is finished. */
  ghost predicate WindowOk(spec: JoinSpec, port: nat, own: Bag, others: Bag, change: seq<Event>, ordinal: nat,
                           cursor: JoinCursor, w: Window, open: Option<Pending>)
    requires port <= 1 && ordinal < |change|
  {
    var next := if w.resume.None? then |change| else w.resume.value.ordinal;
    && FitsI64(w.output) && NonZero(w.output) && ordinal <= next <= |change|
    && w.own == Applied(own, change, ordinal, next)
    && ClearTo(spec, port, own, others, change, ordinal, cursor, next)
    && (w.resume.None? ==> open.None?)
    && (w.resume.Some? ==> next < |change| && ResumesAt(port, change, next, w.resume.value.cursor, open))
  }

  /** A page of the next event, from one durable state to the next. */
  method OneEvent(spec: JoinSpec, port: nat, own: Bag, others: Bag, counts: Counts, ghost history: Output,
                  ghost pending: Option<Pending>, e: Event, cursor: JoinCursor, page: Page)
    returns (r: JoinResult<(Counts, Output, Progress)>)
    requires port <= 1 && e.difference != 0 && DurableAt(spec, port, own, others, counts, history, pending)
    requires if pending.None? then cursor == INITIAL_CURSOR else pending.value == Pending(port, e, cursor)
    requires PageOf(spec.order, Partition(spec, port, e.row, others), cursor.resumeAfter, page)
    ensures r.Failure? ==> Refused(spec, port, own, others, e, cursor, r.error)
    ensures r.Success? ==> WeightFits(own, e) && FitsI64(r.value.1) && (r.value.2.More? ==> r.value.2.cursor != cursor)
    ensures r.Success? ==> NonZero(r.value.1)
    ensures r.Success? && r.value.2.Done? ==> Clear(spec, port, own, others, e, cursor)
    ensures r.Success? && r.value.2.More? ==>
      DurableAt(spec, port, own, others, r.value.0, history + r.value.1, Some(Pending(port, e, r.value.2.cursor)))
    ensures r.Success? && r.value.2.Done? ==>
      DurableAt(spec, port, own[e.row := own[e.row] + e.difference], others, r.value.0, history + r.value.1, None)
  {
    if pending.None? {
      Begins(spec, port, own, others, counts, history, e);
    }
    r := EventPage(spec, port, own, others, counts, history, e, cursor, page);
  }

  /** Processes events in order until the budget is used up or a page does not finish. */
  method RunEvents(spec: JoinSpec, port: nat, own0: Bag, others: Bag, counts0: Counts, ghost history: Output,
                   ghost pending: Option<Pending>, change: seq<Event>, ordinal: nat, cursor: JoinCursor, admitted: nat,
                   scan: (Row, Option<Row>) -> Page)
    returns (r: JoinResult<Window>, ghost open: Option<Pending>)
    requires port <= 1 && ordinal < |change| && forall k :: 0 <= k < |change| ==> change[k].difference != 0
    requires ScansOf(spec, port, others, scan) && ResumesAt(port, change, ordinal, cursor, pending)
    requires DurableAt(spec, port, own0, others, counts0, history, pending)
    ensures r.Failure? ==> RefusedIn(spec, port, own0, others, change, ordinal, cursor, r.error)
    ensures Unhindered(spec, port, own0, others, change, ordinal, cursor) ==> r.Success?
    ensures r.Success? ==> WindowOk(spec, port, own0, others, change, ordinal, cursor, r.value, open)
    ensures r.Success? ==> Moved(change, ordinal, cursor, admitted, r.value, open)
    ensures r.Success? ==> DurableAt(spec, port, r.value.own, others, r.value.counts, history + r.value.output, open)
  {
    var w := Running(own0, counts0, [], ordinal, cursor, true);
    ghost var total := history;
    open := pending;
    assert history + w.output == total;
    while w.running && w.next < |change| && w.next - ordinal < admitted
      invariant RunningOk(spec, port, own0, others, change, ordinal, cursor, w, total, open)
      invariant total == history + w.output
      invariant w.running ==>
        w.next - ordinal <= admitted && (w.next == ordinal ==> w.state == cursor) && (w.next > ordinal ==> open.None?)
      invariant !w.running ==> open.Some? && (w.next > ordinal || w.state != cursor)
      decreases w.running, |change| - w.next
    {
      var advanced;
      advanced, total, open := Advance(spec, port, own0, others, change, ordinal, cursor, w, total, open, scan);
      if advanced.Failure? {
        NotUnhindered(spec, port, own0, others, change, ordinal, cursor, w.next, advanced.error);
        return Failure(advanced.error), open;
      }
      w := advanced.value;
    }
    r := Success(Window(w.own, w.counts, w.output, if w.next == |change| then None else Some(Resume(w.next, w.state))));
  }

  /** Some event of the run is refused as it stands when it is reached, with nothing against those before. */
  ghost predicate RefusedIn(spec: JoinSpec, port: nat, own0: Bag, others: Bag, change: seq<Event>, ordinal: nat,
                            cursor: JoinCursor, error: JoinError)
    requires port <= 1 && ordinal <= |change|
  {
    exists next :: ordinal <= next < |change| && RefusedAt(spec, port, own0, others, change, ordinal, cursor, next,
                                                           error)
  }

  ghost predicate RefusedAt(spec: JoinSpec, port: nat, own0: Bag, others: Bag, change: seq<Event>, ordinal: nat,
                            cursor: JoinCursor, next: nat, error: JoinError)
    requires port <= 1 && ordinal <= next < |change|
  {
    && ClearTo(spec, port, own0, others, change, ordinal, cursor, next)
    && Refused(spec, port, Applied(own0, change, ordinal, next), others, change[next], StartOf(ordinal, cursor, next),
               error)
  }

  /** A refused run breaks a limit that the caller could have checked. */
  lemma NotUnhindered(spec: JoinSpec, port: nat, own0: Bag, others: Bag, change: seq<Event>, ordinal: nat,
                 cursor: JoinCursor, next: nat, error: JoinError)
    requires port <= 1 && ordinal <= next < |change|
    requires RefusedAt(spec, port, own0, others, change, ordinal, cursor, next, error)
    ensures !Unhindered(spec, port, own0, others, change, ordinal, cursor)
  {
    if error.MatchCountOverflow? {
      assert CrowdedAt(own0, others, change, ordinal, next);
    } else {
      assert !ClearAt(spec, port, own0, others, change, ordinal, cursor, next);
    }
  }

  /** A transaction that admits an event moves on: it finishes the input or all it admitted, or
      leaves an event in progress further along than it found it. */
  ghost predicate Moved(change: seq<Event>, ordinal: nat, cursor: JoinCursor, admitted: nat, w: Window,
                        open: Option<Pending>)
  {
    admitted > 0 && w.resume.Some? ==>
      if open.None? then w.resume.value.ordinal == ordinal + admitted
      else w.resume.value.ordinal > ordinal || w.resume.value.cursor != cursor
  }

  /** A transaction under way. */
  datatype Running = Running(own: Bag, counts: Counts, output: Output, next: nat, state: JoinCursor, running: bool)

  /** The relation has taken exactly the events before the next one, and nothing stood against them. */
  ghost predicate PositionOk(spec: JoinSpec, port: nat, own0: Bag, others: Bag, change: seq<Event>, ordinal: nat,
                             cursor: JoinCursor, w: Running)
    requires port <= 1
  {
    && ordinal <= w.next <= |change|
    && w.own == Applied(own0, change, ordinal, w.next)
    && ClearTo(spec, port, own0, others, change, ordinal, cursor, w.next)
  }

  ghost predicate RunningOk(spec: JoinSpec, port: nat, own0: Bag, others: Bag, change: seq<Event>, ordinal: nat,
                            cursor: JoinCursor, w: Running, total: Output, open: Option<Pending>)
    requires port <= 1
  {
    && PositionOk(spec, port, own0, others, change, ordinal, cursor, w) && FitsI64(w.output) && NonZero(w.output)
    && DurableAt(spec, port, w.own, others, w.counts, total, open)
    && (if w.next < |change| then ResumesAt(port, change, w.next, w.state, open) else open.None?)
  }

  /** Processes one page of the next event. */
  method Advance(spec: JoinSpec, port: nat, ghost own0: Bag, others: Bag, change: seq<Event>, ghost ordinal: nat,
                 ghost cursor: JoinCursor, w: Running, ghost total: Output, ghost open: Option<Pending>,
                 scan: (Row, Option<Row>) -> Page)
    returns (r: JoinResult<Running>, ghost total': Output, ghost open': Option<Pending>)
    requires port <= 1 && forall k :: 0 <= k < |change| ==> change[k].difference != 0
    requires ScansOf(spec, port, others, scan) && w.running && w.next < |change|
    requires RunningOk(spec, port, own0, others, change, ordinal, cursor, w, total, open)
    requires w.state == StartOf(ordinal, cursor, w.next)
    ensures r.Failure? ==> RefusedAt(spec, port, own0, others, change, ordinal, cursor, w.next, r.error)
    ensures r.Success? ==> RunningOk(spec, port, own0, others, change, ordinal, cursor, r.value, total', open')
    ensures r.Success? ==> exists more :: r.value.output == w.output + more && total' == total + more
    ensures r.Success? ==>
      if r.value.running then r.value.next == w.next + 1 && open'.None?
      else r.value.next == w.next && open'.Some? && r.value.state != w.state
  {
    total', open' := total, open;
    var e := change[w.next];
    var paged := OneEvent(spec, port, w.own, others, w.counts, total, open, e, w.state,
                          scan(e.row, w.state.resumeAfter));
    if paged.Failure? {
      return Failure(paged.error), total', open';
    }
    var (counts, more, progress) := paged.value;
    total' := total + more;
    match progress {
      case More(c) =>
        open' := Some(Pending(port, e, c));
        r := Success(Running(w.own, counts, w.output + more, w.next, c, false));
        Paused(spec, port, own0, others, change, ordinal, cursor, w, counts, more, total', c);
      case Done =>
        open' := None;
        var own := w.own[e.row := w.own[e.row] + e.difference];
        r := Success(Running(own, counts, w.output + more, w.next + 1, INITIAL_CURSOR, true));
        Finished(spec, port, own0, others, change, ordinal, cursor, w, counts, more, total', own);
    }
  }

  /** After a page that leaves more to do, the same event is in progress. */
  lemma Paused(spec: JoinSpec, port: nat, own0: Bag, others: Bag, change: seq<Event>, ordinal: nat, cursor: JoinCursor,
               w: Running, counts: Counts, more: Output, total: Output, c: JoinCursor)
    requires port <= 1 && w.next < |change| && FitsI64(w.output) && FitsI64(more)
    requires NonZero(w.output) && NonZero(more)
    requires PositionOk(spec, port, own0, others, change, ordinal, cursor, w)
    requires DurableAt(spec, port, w.own, others, counts, total, Some(Pending(port, change[w.next], c)))
    ensures RunningOk(spec, port, own0, others, change, ordinal, cursor,
                      Running(w.own, counts, w.output + more, w.next, c, false), total,
                      Some(Pending(port, change[w.next], c)))
  {
  }

  /** After an event's last page, the next event starts afresh. */
  lemma Finished(spec: JoinSpec, port: nat, own0: Bag, others: Bag, change: seq<Event>, ordinal: nat,
                 cursor: JoinCursor, w: Running, counts: Counts, more: Output, total: Output, own: Bag)
    requires port <= 1 && ordinal <= w.next < |change| && FitsI64(w.output) && FitsI64(more)
    requires NonZero(w.output) && NonZero(more)
    requires PositionOk(spec, port, own0, others, change, ordinal, cursor, w)
    requires Clear(spec, port, w.own, others, change[w.next], StartOf(ordinal, cursor, w.next))
    requires own == w.own[change[w.next].row := w.own[change[w.next].row] + change[w.next].difference]
    requires DurableAt(spec, port, own, others, counts, total, None)
    ensures RunningOk(spec, port, own0, others, change, ordinal, cursor,
                      Running(own, counts, w.output + more, w.next + 1, INITIAL_CURSOR, true), total, None)
  {
    PositionMoves(spec, port, own0, others, change, ordinal, cursor, w,
                  Running(own, counts, w.output + more, w.next + 1, INITIAL_CURSOR, true));
  }

  lemma PositionMoves(spec: JoinSpec, port: nat, own0: Bag, others: Bag, change: seq<Event>, ordinal: nat,
                      cursor: JoinCursor, w: Running, w': Running)
    requires port <= 1 && ordinal <= w.next < |change| && w'.next == w.next + 1
    requires PositionOk(spec, port, own0, others, change, ordinal, cursor, w)
    requires Clear(spec, port, w.own, others, change[w.next], StartOf(ordinal, cursor, w.next))
    requires w'.own == w.own[change[w.next].row := w.own[change[w.next].row] + change[w.next].difference]
    ensures PositionOk(spec, port, own0, others, change, ordinal, cursor, w')
  {
    assert ClearAt(spec, port, own0, others, change, ordinal, cursor, w.next);
  }

  class EquiJoinOperation {
    const spec: JoinSpec
    var left: Bag
    var right: Bag
    var counts: Counts
    /** Every difference ever emitted by a committed step. */
    ghost var history: Output
    /** The event whose pages are not all committed. */
    ghost var pending: Option<Pending>

    ghost predicate Valid()
      reads this
    {
      Durable(spec, left, right, counts, history, pending)
    }

    constructor (spec: JoinSpec)
      ensures Valid() && this.spec == spec && left == right == multiset{} && history == [] && pending == None
    {
      this.spec := spec;
      left, right, counts, history, pending := multiset{}, multiset{}, map[], [], None;
      EmptySettled(spec);
    }

    /** One transaction: resumes the input at `ordinal`, processes events until the budget
        `admitted` is used up or a page does not finish, and commits all of it or nothing. */
    method Step(port: nat, change: seq<Event>, ordinal: nat, cursor: JoinCursor, admitted: nat,
                scan: (Row, Option<Row>) -> Page)
      returns (r: JoinResult<(Output, Option<Resume>)>)
      requires Valid() && port <= 1 && ordinal < |change| && forall k :: 0 <= k < |change| ==> change[k].difference != 0
      requires ScansOf(spec, port, Side(1 - port, left, right), scan)
      requires ResumesAt(port, change, ordinal, cursor, pending)
      modifies this
      ensures Valid()
      ensures r.Failure? ==>
        && left == old(left)
        && right == old(right)
        && counts == old(counts)
        && history == old(history)
        && pending == old(pending)
      ensures var own, others := old(Side(port, left, right)), old(Side(1 - port, left, right));
        && (r.Failure? ==> RefusedIn(spec, port, own, others, change, ordinal, cursor, r.error))
        && (Unhindered(spec, port, own, others, change, ordinal, cursor) ==> r.Success?)
      ensures r.Success? ==>
        history == old(history) + r.value.0 && Side(1 - port, left, right) == old(Side(1 - port, left, right))
      ensures r.Success? ==>
        var own, others := old(Side(port, left, right)), old(Side(1 - port, left, right));
        WindowOk(spec, port, own, others, change, ordinal, cursor,
                 Window(Side(port, left, right), counts, r.value.0, r.value.1), pending)
      ensures r.Success? ==> forall k :: 0 <= k < |r.value.0| ==> r.value.0[k].1 != 0
      ensures r.Success? ==>
        Moved(change, ordinal, cursor, admitted, Window(Side(port, left, right), counts, r.value.0, r.value.1), pending)
    {
      DurableEitherWay(spec, port, left, right, counts, history, pending);
      var ran;
      ghost var open;
      ran, open := RunEvents(spec, port, Side(port, left, right), Side(1 - port, left, right), counts, history,
                             pending, change, ordinal, cursor, admitted, scan);
      if ran.Failure? {
        return Failure(ran.error);
      }
      var w := ran.value;
      if port == 0 { left := w.own; } else { right := w.own; }
      counts, history, pending := w.counts, history + w.output, open;
      DurableEitherWay(spec, port, left, right, counts, history, pending);
      r := Success((w.output, w.resume));
    }
  }

  /** The invariant seen from the driving port. */
  ghost predicate DurableAt(spec: JoinSpec, port: nat, own: Bag, others: Bag, counts: Counts, history: Output,
                            pending: Option<Pending>)
    requires port <= 1
  {
    match pending
    case None => Settled(spec, port, own, others, counts, history)
    case Some(p) =>
      p.port == port
      && own[p.event.row] + p.event.difference >= 0
      && InProgress(spec, port, own, others, counts, history, p.event, p.cursor)
  }

  lemma DurableEitherWay(spec: JoinSpec, port: nat, left: Bag, right: Bag, counts: Counts, history: Output,
                         pending: Option<Pending>)
    requires port <= 1 && (pending.Some? ==> pending.value.port == port)
    ensures Durable(spec, left, right, counts, history, pending)
       <==> DurableAt(spec, port, Side(port, left, right), Side(1 - port, left, right), counts, history, pending)
  {
    if pending.None? && port == 1 {
      assert SettledAt(spec, 0, left, right, counts) == SettledAt(spec, 1, right, left, counts);
      assert forall f ::
        WeightAt(spec.kind, spec.On(), 0, left, right, f)
        == WeightAt(spec.kind, spec.On(), 1, right, left, f);
    }
  }

  lemma EmptySettled(spec: JoinSpec)
    ensures Settled(spec, 0, multiset{}, multiset{}, map[], [])
  {
    forall x, side: nat
      ensures Stored(spec.On(), side, multiset{}, multiset{}, x) == 0 == CountIn(map[], side, x)
    {
    }
    forall f
      ensures Net([], f) == WeightAt(spec.kind, spec.On(), 0, multiset{}, multiset{}, f)
    {
    }
  }

  /** When no event is in progress, what has been committed is the join of the two relations. */
  lemma CommittedIsJoin(op: EquiJoinOperation, f: Fragment)
    requires op.Valid() && op.pending.None?
    ensures Net(op.history, f) == JoinFragments(op.spec.kind, op.spec.On(), op.left, op.right)[f]
  {
    WeightIsMultiplicity(op.spec.kind, op.spec.On(), op.left, op.right, f);
  }
}
