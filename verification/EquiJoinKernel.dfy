/** The equality-join operation: durable relations and match counts, driven event by event and
    page by page. Its committed output always adds up to the join of the committed relations. */
module EquiJoinKernel {
  import opened Options
  import opened Expressions
  import opened Relational
  import opened JoinWeights
  import opened JoinPages
  import opened JoinRuntime

  /** What a join is bound to: its kind, its evaluated keys, its residual and its row order. */
  datatype JoinSpec = JoinSpec(kind: EquiJoinKind, leftKey: Row -> Row, rightKey: Row -> Row,
                               residual: Option<(Row, Row) -> bool>, order: (Row, Row) -> bool)
  {
    function Key(port: nat, x: Row): Row
    {
      if port == 0 then leftKey(x) else rightKey(x)
    }

    /** No key is NULL. */
    predicate Matchable(port: nat, x: Row)
    {
      AllValues(Key(port, x))
    }

    predicate Accepts(port: nat, x: Row, y: Row)
    {
      residual.Some? ==> if port == 0 then residual.value(x, y) else residual.value(y, x)
    }

    ghost function On(): Condition
    {
      ConditionOf(leftKey, rightKey, residual)
    }
  }

  type Counts = map<CountKey, nat>

  /** The opposite rows with the same non-NULL key. */
  function Partition(spec: JoinSpec, port: nat, x: Row, others: Bag): set<Row>
    requires port <= 1
  {
    if spec.Matchable(port, x) then set y | y in others && spec.Key(1 - port, y) == spec.Key(port, x) else {}
  }

  lemma PartitionMeets(spec: JoinSpec, port: nat, x: Row, others: Bag)
    requires port <= 1
    ensures forall y :: y in others && Meets(spec.On(), port, x, y) ==> y in Partition(spec, port, x, others)
    ensures forall y :: y in Partition(spec, port, x, others) ==>
        (Meets(spec.On(), port, x, y) <==> spec.Accepts(port, x, y))
  {
  }

  /** The candidates that the pages before `cursor` have covered. */
  ghost function DoneAt(spec: JoinSpec, port: nat, x: Row, others: Bag, cursor: JoinCursor): set<Row>
    requires port <= 1
  {
    Before(spec.order, Partition(spec, port, x, others), cursor.resumeAfter)
  }

  ghost predicate FoundAmong(on: Condition, port: nat, x: Row, done: set<Row>)
  {
    exists y :: y in done && Meets(on, port, x, y)
  }

  /** A residual left-only join reads the stored count of a row whose presence does not change. */
  predicate Stable(spec: JoinSpec, before: nat, after: nat)
  {
    spec.kind.LeftOnly() && EdgeOf(before, after).Steady?
  }

  /** An event some of whose pages are committed. */
  ghost predicate Midway(spec: JoinSpec, port: nat, own: Bag, others: Bag, x: Row, after: nat, cursor: JoinCursor,
                         counts: Counts)
    requires port <= 1
  {
    && (spec.residual.Some? ==>
            CountsAt(spec.kind, spec.On(), port, own, others, x, after, DoneAt(spec, port, x, others, cursor), counts))
    && (cursor.foundMatch <==> spec.residual.Some? && FoundAmong(spec.On(), port, x,
                                                                 DoneAt(spec, port, x, others, cursor)))
    && (spec.residual.Some? && Stable(spec, own[x], after) ==> cursor.resumeAfter.None?)
  }

  ghost predicate SettledAt(spec: JoinSpec, port: nat, own: Bag, others: Bag, counts: Counts)
  {
    spec.residual.Some? ==> CountsSettled(spec.kind, spec.On(), if port == 0 then own else others,
                                          if port == 0 then others else own, counts)
  }

  /** `out` takes every fragment from its weight at `done` to its weight after the event. */
  ghost predicate Completed(spec: JoinSpec, port: nat, own: Bag, others: Bag, x: Row, after: nat, done: set<Row>,
                            out: Output)
    requires port <= 1
  {
    forall f ::
      Expected(spec.kind, spec.On(), port, own, others, x, after, done, f) + Net(out, f)
      == WeightAt(spec.kind, spec.On(), port, own[x := after], others, f)
  }

  /** What one committed page does. */
  ghost predicate Advances(spec: JoinSpec, port: nat, own: Bag, others: Bag, x: Row, after: nat, cursor: JoinCursor,
                           out: Output, progress: Progress, counts: Counts)
    requires port <= 1
  {
    var done := DoneAt(spec, port, x, others, cursor);
    match progress
    case More(c) =>
      && c.resumeAfter.Some?
      && Midway(spec, port, own, others, x, after, c, counts)
      && Emitted(spec.kind, spec.On(), port, own, others, x, after, done, DoneAt(spec, port, x, others, c), out)
    case Done =>
      SettledAt(spec, port, own[x := after], others, counts) && Completed(spec, port, own, others, x, after, done, out)
  }

  /** Some fragment that the event has still to move takes a shift that no difference can hold. */
  ghost predicate TooLarge(spec: JoinSpec, port: nat, own: Bag, others: Bag, x: Row, after: nat, cursor: JoinCursor)
    requires port <= 1
  {
    exists f :: !Moves(port, x, DoneAt(spec, port, x, others, cursor), f)
      && Oversized(spec.kind, spec.On(), port, own, others, x, after, f)
  }

  /** The candidates covered once `page` is processed. */
  ghost function DoneAfter(spec: JoinSpec, port: nat, x: Row, others: Bag, page: Page): set<Row>
    requires port <= 1
  {
    if page.continuation.None? then Partition(spec, port, x, others)
    else Before(spec.order, Partition(spec, port, x, others), page.continuation)
  }

  lemma PageCovers(spec: JoinSpec, port: nat, x: Row, others: Bag, cursor: JoinCursor, page: Page)
    requires port <= 1 && PageOf(spec.order, Partition(spec, port, x, others), cursor.resumeAfter, page)
    ensures DoneAfter(spec, port, x, others, page) == DoneAt(spec, port, x, others, cursor) + Elements(page.entries)
    ensures forall y :: y in page.entries ==>
        y in Partition(spec, port, x, others) && y !in DoneAt(spec, port, x, others, cursor)
  {
  }

  /** The fragments that a page accounts for; the last page accounts for all that are left. */
  ghost predicate OnPage(spec: JoinSpec, port: nat, x: Row, others: Bag, cursor: JoinCursor, page: Page, f: Fragment)
    requires port <= 1
  {
    && !Moves(port, x, DoneAt(spec, port, x, others, cursor), f)
    && (page.continuation.Some? ==> Moves(port, x, DoneAfter(spec, port, x, others, page), f))
  }

  /** Some fragment of this page takes a shift that no difference can hold. */
  ghost predicate PageTooLarge(spec: JoinSpec, port: nat, own: Bag, others: Bag, x: Row, after: nat,
                               cursor: JoinCursor, page: Page)
    requires port <= 1
  {
    exists f :: OnPage(spec, port, x, others, cursor, page, f)
      && Oversized(spec.kind, spec.On(), port, own, others, x, after, f)
  }

  /** A page that leaves more to do fits exactly when no shift on it is oversized. */
  lemma EmittedFits(spec: JoinSpec, port: nat, own: Bag, others: Bag, x: Row, after: nat, cursor: JoinCursor,
                    page: Page, out: Output)
    requires port <= 1 && page.continuation.Some?
    requires var done, so := DoneAt(spec, port, x, others, cursor), DoneAfter(spec, port, x, others, page);
      && Emitted(spec.kind, spec.On(), port, own, others, x, after, done, so, out)
      && Listed(spec.kind, spec.On(), port, own, others, x, after, done, so, out)
    ensures FitsI64(out) <==> !PageTooLarge(spec, port, own, others, x, after, cursor, page)
  {
    var done := DoneAt(spec, port, x, others, cursor);
    var scope := iset f | OnPage(spec, port, x, others, cursor, page, f);
    FitsUnlessOversized(spec.kind, spec.On(), port, own, others, x, after, done, scope, out);
  }

  /** What finishes an event fits exactly when no shift still to be made is oversized. */
  lemma CompletedFits(spec: JoinSpec, port: nat, own: Bag, others: Bag, x: Row, after: nat, cursor: JoinCursor,
                      out: Output)
    requires port <= 1
    requires var done := DoneAt(spec, port, x, others, cursor);
      && Completed(spec, port, own, others, x, after, done, out)
      && Shifts(spec.kind, spec.On(), port, own, others, x, after, done, out)
    ensures FitsI64(out) <==> !TooLarge(spec, port, own, others, x, after, cursor)
  {
    var done := DoneAt(spec, port, x, others, cursor);
    var scope := iset f | !Moves(port, x, done, f);
    FitsUnlessOversized(spec.kind, spec.On(), port, own, others, x, after, done, scope, out);
  }

  /** The changed row on its own, as it is emitted, takes exactly its shift. */
  lemma OwnShifts(spec: JoinSpec, port: nat, own: Bag, others: Bag, x: Row, after: nat, done: set<Row>, matched: bool)
    requires port <= 1
    requires ShowsAlone(spec.kind, port, matched) == ShowsAlone(spec.kind, port, MeetsSome(spec.On(), port, x, others))
    ensures Shifts(spec.kind, spec.On(), port, own, others, x, after, done,
                   OwnOutput(spec.kind, port, x, after - own[x], matched))
  {
    AloneMoves(spec.kind, spec.On(), port, own, others, x, after);
  }

  /** An event without a candidate to show emits at most its own row, which always fits. */
  lemma OwnFits(spec: JoinSpec, port: nat, own: Bag, others: Bag, x: Row, after: nat, matched: bool)
    requires port <= 1 && Fits(after - own[x])
    requires Completed(spec, port, own, others, x, after, {}, OwnOutput(spec.kind, port, x, after - own[x], matched))
    requires ShowsAlone(spec.kind, port, matched) == ShowsAlone(spec.kind, port, MeetsSome(spec.On(), port, x, others))
    ensures !TooLarge(spec, port, own, others, x, after, INITIAL_CURSOR)
  {
    OwnShifts(spec, port, own, others, x, after, {}, matched);
    CompletedFits(spec, port, own, others, x, after, INITIAL_CURSOR,
                  OwnOutput(spec.kind, port, x, after - own[x], matched));
  }

  /** The limit in terms of the opposite rows: some candidate still to come meets the row, and its
      pair or its correction does not fit. */
  lemma TooLargeIff(spec: JoinSpec, port: nat, own: Bag, others: Bag, x: Row, after: nat, cursor: JoinCursor)
    requires port <= 1 && Fits(after - own[x])
    ensures TooLarge(spec, port, own, others, x, after, cursor) <==>
      exists y, t :: y in others && y !in DoneAt(spec, port, x, others, cursor) && Meets(spec.On(), port, x, y)
        && ChangesTo(spec.kind, spec.On(), port, own, x, after, y, t)
        && (!Fits(AloneDifference(spec.kind, t, others[y]))
            || (!spec.kind.LeftOnly() && !Fits(Product(after - own[x], others[y]))))
  {
    var kind, on, done := spec.kind, spec.On(), DoneAt(spec, port, x, others, cursor);
    if TooLarge(spec, port, own, others, x, after, cursor) {
      var f :| !Moves(port, x, done, f) && Oversized(kind, on, port, own, others, x, after, f);
      var ys := Meeting(on, port, x, others);
      AloneMoves(kind, on, port, own, others, x, after);
      if !Moves(port, x, ys, f) && f != AloneOf(port, x) {
        OthersStay(kind, on, port, own, others, x, after, ys, f);
      }
      var y :| y in ys && (f == PairOf(port, x, y) || f == AloneOf(1 - port, y));
      var t := if Tracks(kind, 1 - port)
               then TransitionOf(MeetsSome(on, 1 - port, y, own), MeetsSome(on, 1 - port, y, own[x := after]))
               else Unchanged;
      assert ChangesTo(kind, on, port, own, x, after, y, t);
      CorrectionSound(kind, on, port, own, others, x, after, y, t);
      QualifyingPair(kind, on, port, own, others, x, after, y);
    }
    forall y, t | y in others && y !in done && Meets(on, port, x, y) && ChangesTo(kind, on, port, own, x, after, y, t)
      ensures !Fits(AloneDifference(kind, t, others[y])) ==> TooLarge(spec, port, own, others, x, after, cursor)
      ensures !kind.LeftOnly() && !Fits(Product(after - own[x], others[y])) ==>
        TooLarge(spec, port, own, others, x, after, cursor)
    {
      MovesMore(port, x, done, y, AloneOf(1 - port, y));
      CorrectionSound(kind, on, port, own, others, x, after, y, t);
      QualifyingPair(kind, on, port, own, others, x, after, y);
      assert !Fits(AloneDifference(kind, t, others[y])) ==> Oversized(kind, on, port, own, others, x, after,
                                                                      AloneOf(1 - port, y));
      assert !kind.LeftOnly() && !Fits(Product(after - own[x], others[y])) ==>
        Oversized(kind, on, port, own, others, x, after, PairOf(port, x, y));
    }
  }

  /** A page that leaves something to do moves the cursor. */
  lemma PageMoves(spec: JoinSpec, port: nat, x: Row, others: Bag, cursor: JoinCursor, page: Page)
    requires port <= 1 && PageOf(spec.order, Partition(spec, port, x, others), cursor.resumeAfter, page)
    requires page.continuation.Some?
    ensures page.continuation != cursor.resumeAfter
  {
    assert page.entries[0] in page.entries;
  }

  function AcceptedBy(spec: JoinSpec, port: nat, x: Row): Row -> bool
  {
    y => spec.Accepts(port, x, y)
  }

  /** The qualifying rows of a page are new, and the rest of what it covers meets nothing. */
  lemma PageMatches(spec: JoinSpec, port: nat, x: Row, others: Bag, cursor: JoinCursor, page: Page)
    requires port <= 1 && PageOf(spec.order, Partition(spec, port, x, others), cursor.resumeAfter, page)
    ensures var done, q := DoneAt(spec, port, x, others, cursor), Qualifying(AcceptedBy(spec, port, x), page.entries);
      && FreshMatches(spec.On(), port, x, others, done, q)
      && done + Elements(q) <= DoneAfter(spec, port, x, others, page)
      && forall y :: y in DoneAfter(spec, port, x, others, page) && y !in done + Elements(q) ==>
           !Meets(spec.On(), port, x, y)
  {
    PageCovers(spec, port, x, others, cursor, page);
    PartitionMeets(spec, port, x, others);
  }

  lemma FoundMore(spec: JoinSpec, port: nat, x: Row, others: Bag, cursor: JoinCursor, page: Page)
    requires port <= 1 && PageOf(spec.order, Partition(spec, port, x, others), cursor.resumeAfter, page)
    ensures var q := Qualifying(AcceptedBy(spec, port, x), page.entries);
      FoundAmong(spec.On(), port, x, DoneAfter(spec, port, x, others, page)) <==>
        FoundAmong(spec.On(), port, x, DoneAt(spec, port, x, others, cursor)) || |q| > 0
  {
    PageMatches(spec, port, x, others, cursor, page);
    PageCovers(spec, port, x, others, cursor, page);
    var on, done, q := spec.On(), DoneAt(spec, port, x, others, cursor),
        Qualifying(AcceptedBy(spec, port, x), page.entries);
    if |q| > 0 {
      assert q[0] in q && q[0] in DoneAfter(spec, port, x, others, page);
    }
    if FoundAmong(on, port, x, DoneAfter(spec, port, x, others, page)) {
      var y :| y in DoneAfter(spec, port, x, others, page) && Meets(on, port, x, y);
      assert y in done || y in q;
    }
    if FoundAmong(on, port, x, done) {
      var y :| y in done && Meets(on, port, x, y);
      assert y in DoneAfter(spec, port, x, others, page);
    }
  }

  lemma FoundAll(spec: JoinSpec, port: nat, x: Row, others: Bag)
    requires port <= 1
    ensures FoundAmong(spec.On(), port, x, Partition(spec, port, x, others)) <==> MeetsSome(spec.On(), port, x, others)
  {
    PartitionMeets(spec, port, x, others);
    if MeetsSome(spec.On(), port, x, others) {
      var y :| y in others && Meets(spec.On(), port, x, y);
      assert y in Partition(spec, port, x, others);
    }
  }

  // ---- The path with a residual -------------------------------------------

  /** Updates the support counts for a page and emits its candidates. */
  method EmitCandidates(spec: JoinSpec, port: nat, ghost own: Bag, others: Bag, x: Row, d: int, ghost after: nat,
                        edge: KeyTransition, matches: seq<Row>, ghost done: set<Row>, counts0: Counts)
    returns (r: JoinResult<(Counts, Output)>)
    requires port <= 1 && FreshMatches(spec.On(), port, x, others, done, matches) && d == after - own[x] != 0
    requires edge == EdgeOf(own[x], after)
    requires CountsAt(spec.kind, spec.On(), port, own, others, x, after, done, counts0)
    requires forall y :: y in done ==> y in others
    ensures r.Failure? ==> r.error == MatchCountOverflow && Crowded(own, others)
    ensures r.Success? ==>
      CountsAt(spec.kind, spec.On(), port, own, others, x, after, done + Elements(matches), r.value.0)
    ensures r.Success? ==>
      Emitted(spec.kind, spec.On(), port, own, others, x, after, done, done + Elements(matches), r.value.1)
    ensures r.Success? ==>
      Listed(spec.kind, spec.On(), port, own, others, x, after, done, done + Elements(matches), r.value.1)
    ensures r.Success? ==> Turns(port, x, matches, |matches|, r.value.1)
  {
    var counts := counts0;
    OwnAdjusts(spec.On(), port, own, others, x, after, done, matches);
    SupportInMany(spec.On(), port, x, others, done, matches);
    SupportInBound(spec.On(), port, x, others, done + Elements(matches));
    SupportBounded(spec.On(), port, x, others);
    if Tracks(spec.kind, port) && !edge.Steady? && |matches| != 0 {
      var adjusted := AdjustCount(counts, port, x, edge, |matches|);
      if adjusted.Failure? {
        return Failure(adjusted.error);
      }
      counts := adjusted.value;
    }
    ghost var mid := counts;
    assert Tracks(spec.kind, port) ==> CountIn(mid, port, x) == OwnCount(spec.On(), port, own, others, x, after,
                                                                         done + Elements(matches));
    r := EmitMatches(spec.kind, spec.On(), port, own, others, x, d, after, edge, matches, done, counts);
  }

  lemma ListedThen(kind: EquiJoinKind, on: Condition, port: nat, own: Bag, others: Bag, x: Row, after: nat,
                   done: set<Row>, so: set<Row>, so': set<Row>, out: Output)
    requires port <= 1 && Listed(kind, on, port, own, others, x, after, done, so, out) && so <= so'
    ensures Listed(kind, on, port, own, others, x, after, done, so', out)
  {
    forall k | 0 <= k < |out|
      ensures Moves(port, x, so', out[k].0)
    {
      assert Moves(port, x, so, out[k].0);
    }
  }

  lemma EmittedThen(kind: EquiJoinKind, on: Condition, port: nat, own: Bag, others: Bag, x: Row, after: nat,
                    done: set<Row>, so: set<Row>, so': set<Row>, out: Output)
    requires port <= 1 && Emitted(kind, on, port, own, others, x, after, done, so, out)
    requires so <= so' && forall y :: y in so' && y !in so ==> !Meets(on, port, x, y)
    ensures Emitted(kind, on, port, own, others, x, after, done, so', out)
  {
    forall f
      ensures Expected(kind, on, port, own, others, x, after, done, f) + Net(out, f)
          == Expected(kind, on, port, own, others, x, after, so', f)
    {
      RejectedFree(kind, on, port, own, others, x, after, so, so', f);
    }
  }

  /** With everything that meets the row processed, its own row completes the event. */
  lemma CompletedBy(spec: JoinSpec, port: nat, own: Bag, others: Bag, x: Row, after: nat, done: set<Row>, so: set<Row>,
                    out: Output, matched: bool)
    requires port <= 1 && Emitted(spec.kind, spec.On(), port, own, others, x, after, done, so, out)
    requires forall y :: y in others && Meets(spec.On(), port, x, y) ==> y in so
    requires matched == MeetsSome(spec.On(), port, x, others)
    ensures Completed(spec, port, own, others, x, after, done,
                      out + OwnOutput(spec.kind, port, x, after - own[x], matched))
  {
    var more := OwnOutput(spec.kind, port, x, after - own[x], matched);
    forall f
      ensures Expected(spec.kind, spec.On(), port, own, others, x, after, done, f) + Net(out + more, f)
          == WeightAt(spec.kind, spec.On(), port, own[x := after], others, f)
    {
      NetConcat(out, more, f);
      FinalStep(spec.kind, spec.On(), port, own, others, x, after, so, f);
    }
  }

  lemma SteadyStatus(on: Condition, own: Bag, x: Row, after: nat, y: Row)
    requires EdgeOf(own[x], after).Steady?
    ensures MeetsSome(on, 0, y, own[x := after]) == MeetsSome(on, 0, y, own)
  {
    forall z
      ensures z in own <==> z in own[x := after]
    {
    }
  }

  lemma StableCompleted(spec: JoinSpec, port: nat, own: Bag, others: Bag, x: Row, after: nat, found: bool)
    requires port <= 1 && Stable(spec, own[x], after) && (port == 0 ==> found == MeetsSome(spec.On(), 0, x, others))
    ensures Completed(spec, port, own, others, x, after, {}, OwnOutput(spec.kind, port, x, after - own[x], found))
  {
    var on := spec.On();
    forall y
      ensures port == 1 ==> MeetsSome(on, 0, y, own[x := after]) == MeetsSome(on, 0, y, own)
    {
      SteadyStatus(on, own, x, after, y);
    }
    assert OwnOutput(spec.kind, port, x, after - own[x], found)
        == OwnOutput(spec.kind, port, x, after - own[x], MeetsSome(on, port, x, others));
    forall f
      ensures Expected(spec.kind, on, port, own, others, x, after, {}, f)
        + Net(OwnOutput(spec.kind, port, x, after - own[x], found), f)
        == WeightAt(spec.kind, on, port, own[x := after], others, f)
    {
      assert !Moves(port, x, {}, f);
      StableStep(spec.kind, on, port, own, others, x, after, f);
    }
  }

  lemma StableSettled(spec: JoinSpec, port: nat, own: Bag, others: Bag, x: Row, after: nat, counts: Counts)
    requires port <= 1 && Stable(spec, own[x], after) && own[x] > 0
    requires CountsAt(spec.kind, spec.On(), port, own, others, x, after, {}, counts)
    ensures SettledAt(spec, port, own[x := after], others, counts)
  {
    var on := spec.On();
    if port == 0 {
      forall z
        ensures CountIn(counts, 0, z) == Stored(on, 0, own[x := after], others, z)
      {
      }
    } else {
      forall z
        ensures CountIn(counts, 0, z) == Stored(on, 0, others, own[x := after], z)
      {
        assert Meeting(on, 0, z, own) == Meeting(on, 0, z, own[x := after]);
      }
    }
  }

  /** The support of a row without a match is zero. */
  lemma OwnFound(spec: JoinSpec, port: nat, own: Bag, others: Bag, x: Row, after: nat, counts: Counts)
    requires port <= 1 && own[x] != after && Tracks(spec.kind, port)
    requires SideSettled(spec.On(), port, own[x := after], others, counts)
    ensures if EdgeOf(own[x], after).Last?
       then CountIn(counts, port, x) == 0
       else (CountIn(counts, port, x) > 0) == MeetsSome(spec.On(), port, x, others)
  {
    SupportPositive(spec.On(), port, x, others);
  }

  /** Whether the stored support agrees with the candidates found. */
  predicate CountAgrees(kind: EquiJoinKind, port: nat, x: Row, edge: KeyTransition, found: bool, counts: Counts)
  {
    Tracks(kind, port) ==> if edge.Last? then CountIn(counts, port, x) == 0 else (CountIn(counts, port, x) > 0) == found
  }

  /** Whether a stable row is matched, by its stored count. */
  function StableFound(spec: JoinSpec, port: nat, x: Row, counts: Counts): bool
  {
    port == 0 && spec.Matchable(port, x) && CountIn(counts, port, x) > 0
  }

  /** An event that needs no candidates: the row is stable, and its stored count says whether it is matched. */
  method StableEvent(spec: JoinSpec, port: nat, own: Bag, ghost others: Bag, counts: Counts, x: Row, d: Difference,
                     ghost after: nat)
    returns (out: Output)
    requires port <= 1 && spec.residual.Some? && d == after - own[x] && d != 0 && Stable(spec, own[x], after)
    requires Midway(spec, port, own, others, x, after, INITIAL_CURSOR, counts)
    ensures Advances(spec, port, own, others, x, after, INITIAL_CURSOR, out, Done, counts)
    ensures FitsI64(out) && Proper(out) && !TooLarge(spec, port, own, others, x, after, INITIAL_CURSOR)
    ensures CountAgrees(spec.kind, port, x, Steady, StableFound(spec, port, x, counts), counts)
    ensures out == OwnOutput(spec.kind, port, x, d, StableFound(spec, port, x, counts))
  {
    var found := StableFound(spec, port, x, counts);
    out := OwnOutput(spec.kind, port, x, d, found);
    SupportPositive(spec.On(), port, x, others);
    PartitionMeets(spec, port, x, others);
    assert port == 0 ==> found == MeetsSome(spec.On(), 0, x, others);
    StableCompleted(spec, port, own, others, x, after, found);
    StableSettled(spec, port, own, others, x, after, counts);
    OwnFits(spec, port, own, others, x, after, found);
  }

  /** The counts after a page, whatever it rejected. */
  lemma CountsCover(spec: JoinSpec, port: nat, own: Bag, others: Bag, x: Row, after: nat, so: set<Row>, so': set<Row>,
                    counts: Counts)
    requires port <= 1 && own[x] != after && so <= so'
    requires forall y :: y in so' && y !in so ==> !Meets(spec.On(), port, x, y)
    requires CountsAt(spec.kind, spec.On(), port, own, others, x, after, so, counts)
    ensures CountsAt(spec.kind, spec.On(), port, own, others, x, after, so', counts)
  {
    RejectedCounts(spec.kind, spec.On(), port, own, others, x, after, so, so', counts);
  }

  lemma CountsFinish(spec: JoinSpec, port: nat, own: Bag, others: Bag, x: Row, after: nat, counts: Counts)
    requires port <= 1 && own[x] != after
    requires CountsAt(spec.kind, spec.On(), port, own, others, x, after, Partition(spec, port, x, others), counts)
    ensures SettledAt(spec, port, own[x := after], others, counts)
    ensures CountAgrees(spec.kind, port, x, EdgeOf(own[x], after), MeetsSome(spec.On(), port, x, others), counts)
  {
    PartitionMeets(spec, port, x, others);
    CountsEnd(spec.kind, spec.On(), port, own, others, x, after, Partition(spec, port, x, others), counts);
    if Tracks(spec.kind, port) {
      OwnFound(spec, port, own, others, x, after, counts);
    }
  }

  /** A page is refused exactly when a shift on it is oversized, a crowded support count aside. */
  ghost predicate PageOutcome(spec: JoinSpec, port: nat, own: Bag, others: Bag, x: Row, after: nat, cursor: JoinCursor,
                              page: Page, r: JoinResult<(Counts, Output, Progress)>)
    requires port <= 1
  {
    match r
    case Failure(error) =>
      || (error == MatchCountOverflow && spec.residual.Some? && Crowded(own, others))
      || (error == OutputDifferenceOverflow && PageTooLarge(spec, port, own, others, x, after, cursor, page))
    case Success((counts, out, progress)) =>
      && Advances(spec, port, own, others, x, after, cursor, out, progress, counts) && FitsI64(out) && Proper(out)
      && !PageTooLarge(spec, port, own, others, x, after, cursor, page)
      && (progress.Done? ==> !TooLarge(spec, port, own, others, x, after, cursor))
      && (progress.More? ==> progress.cursor.resumeAfter == page.continuation)
  }

  /** The matches of a page are emitted in the order of its entries. */
  lemma QualifyingTurns(q: Row -> bool, port: nat, x: Row, entries: seq<Row>, out: Output)
    requires port <= 1 && Turns(port, x, Qualifying(q, entries), |Qualifying(q, entries)|, out)
    ensures Turns(port, x, entries, |entries|, out)
  {
    var at := QualifyingAt(q, entries);
    TurnsAmong(port, x, Qualifying(q, entries), entries, at, out);
  }

  /** What the changed row itself adds comes last. */
  lemma OwnComesLast(kind: EquiJoinKind, port: nat, x: Row, d: int, matched: bool, entries: seq<Row>, out: Output)
    requires port <= 1 && Turns(port, x, entries, |entries|, out)
    ensures Ordered(port, x, entries, out + OwnOutput(kind, port, x, d, matched))
  {
    OrderedThen(port, x, entries, out, OwnOutput(kind, port, x, d, matched));
  }

  lemma OwnAlone(kind: EquiJoinKind, port: nat, x: Row, d: int, matched: bool, entries: seq<Row>)
    requires port <= 1
    ensures Ordered(port, x, entries, OwnOutput(kind, port, x, d, matched))
  {
    NoTurns(port, x, entries, |entries|);
    OwnComesLast(kind, port, x, d, matched, entries, []);
    assert [] + OwnOutput(kind, port, x, d, matched) == OwnOutput(kind, port, x, d, matched);
  }

  /** One page of an event under a residual. */
  method ResidualPage(spec: JoinSpec, port: nat, own: Bag, others: Bag, counts0: Counts, x: Row, d: Difference,
                      ghost after: nat, cursor: JoinCursor, page: Page)
    returns (r: JoinResult<(Counts, Output, Progress)>)
    requires port <= 1 && spec.residual.Some? && d == after - own[x] && d != 0
    requires Midway(spec, port, own, others, x, after, cursor, counts0)
    requires PageOf(spec.order, Partition(spec, port, x, others), cursor.resumeAfter, page)
    ensures PageOutcome(spec, port, own, others, x, after, cursor, page, r)
    ensures r.Success? ==> Ordered(port, x, page.entries, r.value.1)
  {
    if Stable(spec, own[x], own[x] + d) {
      var stable := StableEvent(spec, port, own, others, counts0, x, d, after);
      OwnAlone(spec.kind, port, x, d, StableFound(spec, port, x, counts0), page.entries);
      return Success((counts0, stable, Done));
    }
    var edge := EdgeOf(own[x], own[x] + d);
    ghost var done := DoneAt(spec, port, x, others, cursor);
    ghost var so' := DoneAfter(spec, port, x, others, page);
    var matches := Qualifying(AcceptedBy(spec, port, x), page.entries);
    PageMatches(spec, port, x, others, cursor, page);
    FoundMore(spec, port, x, others, cursor, page);
    var found := cursor.foundMatch || |matches| != 0;
    var emitted := EmitCandidates(spec, port, own, others, x, d, after, edge, matches, done, counts0);
    if emitted.Failure? {
      return Failure(emitted.error);
    }
    var (counts, out) := emitted.value;
    CountsCover(spec, port, own, others, x, after, done + Elements(matches), so', counts);
    EmittedThen(spec.kind, spec.On(), port, own, others, x, after, done, done + Elements(matches), so', out);
    ListedThen(spec.kind, spec.On(), port, own, others, x, after, done, done + Elements(matches), so', out);
    QualifyingTurns(AcceptedBy(spec, port, x), port, x, page.entries, out);
    if page.continuation.Some? {
      EmittedFits(spec, port, own, others, x, after, cursor, page, out);
      if !FitsI64(out) {
        return Failure(OutputDifferenceOverflow);
      }
      return Success((counts, out, More(JoinCursor(found, page.continuation))));
    }
    r := LastPage(spec, port, own, others, x, d, after, cursor, page, found, counts, out);
  }

  /** With every candidate processed, the changed row itself completes the event. */
  method LastPage(spec: JoinSpec, port: nat, own: Bag, others: Bag, x: Row, d: Difference, ghost after: nat,
                  ghost cursor: JoinCursor, ghost page: Page, found: bool, counts: Counts, out: Output)
    returns (r: JoinResult<(Counts, Output, Progress)>)
    requires port <= 1 && spec.residual.Some? && d == after - own[x] && d != 0 && page.continuation.None?
    requires found == FoundAmong(spec.On(), port, x, Partition(spec, port, x, others))
    requires CountsAt(spec.kind, spec.On(), port, own, others, x, after, Partition(spec, port, x, others), counts)
    requires var done, so := DoneAt(spec, port, x, others, cursor), Partition(spec, port, x, others);
      && Emitted(spec.kind, spec.On(), port, own, others, x, after, done, so, out)
      && Listed(spec.kind, spec.On(), port, own, others, x, after, done, so, out)
    requires Turns(port, x, page.entries, |page.entries|, out)
    ensures PageOutcome(spec, port, own, others, x, after, cursor, page, r)
    ensures r.Success? ==> Ordered(port, x, page.entries, r.value.1)
  {
    ghost var done := DoneAt(spec, port, x, others, cursor);
    FoundAll(spec, port, x, others);
    CountsFinish(spec, port, own, others, x, after, counts);
    // The stored support is checked against the candidates found here; it always agrees.
    assert CountAgrees(spec.kind, port, x, EdgeOf(own[x], own[x] + d), found, counts);
    PartitionMeets(spec, port, x, others);
    CompletedBy(spec, port, own, others, x, after, done, Partition(spec, port, x, others), out, found);
    OwnShifts(spec, port, own, others, x, after, done, found);
    var all := out + OwnOutput(spec.kind, port, x, d, found);
    ProperMore(port, x, Partition(spec, port, x, others), out, OwnOutput(spec.kind, port, x, d, found));
    CompletedFits(spec, port, own, others, x, after, cursor, all);
    OwnComesLast(spec.kind, port, x, d, found, page.entries, out);
    if !FitsI64(all) {
      return Failure(OutputDifferenceOverflow);
    }
    r := Success((counts, all, Done));
  }

  // ---- The path without a residual ----------------------------------------

  /** Whether some row of `own` has the key of `x`. */
  predicate KeyPresent(spec: JoinSpec, port: nat, x: Row, own: Bag)
  {
    exists z :: z in own && spec.Key(port, z) == spec.Key(port, x)
  }

  /** The presence edge of the whole key, from the partition before the change. */
  function KeyEdge(spec: JoinSpec, port: nat, x: Row, own: Bag, after: nat): KeyTransition
  {
    if spec.kind.InnerJoin? || !spec.Matchable(port, x) then Steady
    else if own[x] == 0 && after > 0 && !KeyPresent(spec, port, x, own) then First
    else if own[x] > 0 && after == 0 && !(exists z :: z in own && z != x && spec.Key(port, z) == spec.Key(port, x))
      then Last
    else Steady
  }

  function KeyChange(spec: JoinSpec, port: nat, edge: KeyTransition): MatchTransition
    requires port <= 1
  {
    if !Tracks(spec.kind, 1 - port) then Unchanged
    else match edge case First => BecameMatched case Last => BecameUnmatched case Steady => Unchanged
  }

  /** Without a residual, a row is matched exactly when its key is present on the other side. */
  lemma MatchedByKey(spec: JoinSpec, port: nat, x: Row, y: Row, own: Bag)
    requires port <= 1 && spec.residual.None? && Meets(spec.On(), port, x, y)
    ensures MeetsSome(spec.On(), 1 - port, y, own) <==> KeyPresent(spec, port, x, own)
  {
    if KeyPresent(spec, port, x, own) {
      var z :| z in own && spec.Key(port, z) == spec.Key(port, x);
      assert Meets(spec.On(), 1 - port, y, z);
    }
    if MeetsSome(spec.On(), 1 - port, y, own) {
      var z :| z in own && Meets(spec.On(), 1 - port, y, z);
      assert spec.Key(port, z) == spec.Key(port, x);
    }
  }

  lemma KeyPresentAfter(spec: JoinSpec, port: nat, x: Row, own: Bag, after: nat)
    requires port <= 1 && spec.Matchable(port, x) && !spec.kind.InnerJoin?
    ensures TransitionOf(KeyPresent(spec, port, x, own), KeyPresent(spec, port, x, own[x := after]))
         == match KeyEdge(spec, port, x, own, after)
              case First => BecameMatched
              case Last => BecameUnmatched
              case Steady => Unchanged
  {
    if exists z :: z in own && z != x && spec.Key(port, z) == spec.Key(port, x) {
      var z :| z in own && z != x && spec.Key(port, z) == spec.Key(port, x);
      assert z in own[x := after];
    }
    if own[x] > 0 {
      assert x in own;
    }
    if after > 0 {
      assert x in own[x := after];
    }
  }

  lemma KeyChangeSound(spec: JoinSpec, port: nat, own: Bag, x: Row, after: nat, y: Row)
    requires port <= 1 && spec.residual.None? && Meets(spec.On(), port, x, y)
    ensures ChangesTo(spec.kind, spec.On(), port, own, x, after, y,
                      KeyChange(spec, port, KeyEdge(spec, port, x, own, after)))
  {
    if Tracks(spec.kind, 1 - port) {
      MatchedByKey(spec, port, x, y, own);
      MatchedByKey(spec, port, x, y, own[x := after]);
      KeyPresentAfter(spec, port, x, own, after);
    }
  }

  /** Nothing moves on the other side when a left-only join's right key stays present or absent. */
  lemma KeyStable(spec: JoinSpec, own: Bag, others: Bag, x: Row, after: nat, y: Row)
    requires spec.residual.None? && spec.kind.LeftOnly() && KeyEdge(spec, 1, x, own, after).Steady?
    ensures MeetsSome(spec.On(), 0, y, own[x := after]) == MeetsSome(spec.On(), 0, y, own)
  {
    if Meets(spec.On(), 1, x, y) {
      MatchedByKey(spec, 1, x, y, own);
      MatchedByKey(spec, 1, x, y, own[x := after]);
      KeyPresentAfter(spec, 1, x, own, after);
    } else {
      StatusKept(spec.On(), 1, own, x, after, y);
    }
  }

  /** A left-only join moves only the changed row itself, unless a right key appears or disappears. */
  lemma LeftOnlyCompleted(spec: JoinSpec, port: nat, own: Bag, others: Bag, x: Row, after: nat, matched: bool)
    requires port <= 1 && spec.residual.None? && spec.kind.LeftOnly()
    requires port == 0 ==> matched == MeetsSome(spec.On(), 0, x, others)
    requires port == 1 ==> KeyEdge(spec, 1, x, own, after).Steady?
    ensures Completed(spec, port, own, others, x, after, {}, OwnOutput(spec.kind, port, x, after - own[x], matched))
  {
    var on := spec.On();
    forall y
      ensures port == 1 ==> MeetsSome(on, 0, y, own[x := after]) == MeetsSome(on, 0, y, own)
    {
      if port == 1 {
        KeyStable(spec, own, others, x, after, y);
      }
    }
    assert OwnOutput(spec.kind, port, x, after - own[x], matched)
        == OwnOutput(spec.kind, port, x, after - own[x], MeetsSome(on, port, x, others));
    forall f
      ensures Expected(spec.kind, on, port, own, others, x, after, {}, f)
        + Net(OwnOutput(spec.kind, port, x, after - own[x], matched), f)
        == WeightAt(spec.kind, on, port, own[x := after], others, f)
    {
      assert !Moves(port, x, {}, f);
      StableStep(spec.kind, on, port, own, others, x, after, f);
    }
  }

  lemma MatchedByPartition(spec: JoinSpec, port: nat, x: Row, others: Bag)
    requires port <= 1 && spec.residual.None?
    ensures MeetsSome(spec.On(), port, x, others) <==> Partition(spec, port, x, others) != {}
  {
    FoundAll(spec, port, x, others);
    PartitionMeets(spec, port, x, others);
  }

  lemma NothingToMeet(spec: JoinSpec, port: nat, own: Bag, others: Bag, x: Row, after: nat, out: Output)
    requires port <= 1 && spec.residual.None? && Partition(spec, port, x, others) == {}
    requires out == OwnOutput(spec.kind, port, x, after - own[x], false)
    ensures Completed(spec, port, own, others, x, after, {}, out)
  {
    PartitionMeets(spec, port, x, others);
    MatchedByPartition(spec, port, x, others);
    CompletedBy(spec, port, own, others, x, after, {}, {}, [], false);
    assert [] + out == out;
  }

  /** Whether an event without a residual looks at the opposite rows at all. */
  predicate KeysScan(spec: JoinSpec, port: nat, x: Row, edge: KeyTransition, others: Bag)
    requires port <= 1
  {
    && spec.Matchable(port, x)
    && !(spec.kind.LeftOnly() && (port == 0 || edge.Steady?))
    && Partition(spec, port, x, others) != {}
  }

  /** What an event that does not scan emits: at most the changed row on its own. */
  lemma KeysIdle(spec: JoinSpec, port: nat, own: Bag, others: Bag, x: Row, after: nat)
    requires port <= 1 && spec.residual.None? && !KeysScan(spec, port, x, KeyEdge(spec, port, x, own, after), others)
    ensures Completed(spec, port, own, others, x, after, {},
                      OwnOutput(spec.kind, port, x, after - own[x], Partition(spec, port, x, others) != {}))
  {
    MatchedByPartition(spec, port, x, others);
    if Partition(spec, port, x, others) == {} {
      NothingToMeet(spec, port, own, others, x, after, OwnOutput(spec.kind, port, x, after - own[x], false));
    } else {
      LeftOnlyCompleted(spec, port, own, others, x, after, true);
    }
  }

  lemma KeysIdleFits(spec: JoinSpec, port: nat, own: Bag, others: Bag, x: Row, after: nat, matched: bool)
    requires port <= 1 && spec.residual.None? && Fits(after - own[x])
    requires matched == (Partition(spec, port, x, others) != {})
    requires Completed(spec, port, own, others, x, after, {}, OwnOutput(spec.kind, port, x, after - own[x], matched))
    ensures !TooLarge(spec, port, own, others, x, after, INITIAL_CURSOR)
  {
    MatchedByPartition(spec, port, x, others);
    OwnFits(spec, port, own, others, x, after, matched);
  }

  /** The page of an event that does not scan: complete at once, whatever the store would return. */
  lemma KeysIdlePage(spec: JoinSpec, port: nat, own: Bag, others: Bag, counts: Counts, x: Row, d: Difference,
                     after: nat, cursor: JoinCursor, page: Page, matched: bool)
    requires port <= 1 && spec.residual.None? && d == after - own[x] && d != 0
    requires Midway(spec, port, own, others, x, after, cursor, counts) && cursor.resumeAfter.None?
    requires !KeysScan(spec, port, x, KeyEdge(spec, port, x, own, after), others)
    requires matched == (Partition(spec, port, x, others) != {})
    ensures PageOutcome(spec, port, own, others, x, after, cursor, page,
                        Success((counts, OwnOutput(spec.kind, port, x, d, matched), Done)))
    ensures Ordered(port, x, page.entries, OwnOutput(spec.kind, port, x, d, matched))
  {
    KeysIdle(spec, port, own, others, x, after);
    KeysIdleFits(spec, port, own, others, x, after, matched);
    OwnAlone(spec.kind, port, x, d, matched, page.entries);
  }

  /** One page of an event without a residual. */
  method KeysPage(spec: JoinSpec, port: nat, own: Bag, others: Bag, counts: Counts, x: Row, d: Difference,
                  ghost after: nat, cursor: JoinCursor, page: Page)
    returns (r: JoinResult<(Counts, Output, Progress)>)
    requires port <= 1 && spec.residual.None? && d == after - own[x] && d != 0
    requires Midway(spec, port, own, others, x, after, cursor, counts)
    requires cursor.resumeAfter.Some? ==> KeysScan(spec, port, x, KeyEdge(spec, port, x, own, after), others)
    requires PageOf(spec.order, Partition(spec, port, x, others), cursor.resumeAfter, page)
    ensures PageOutcome(spec, port, own, others, x, after, cursor, page, r)
    ensures r.Success? && r.value.2.More? ==> KeysScan(spec, port, x, KeyEdge(spec, port, x, own, after), others)
    ensures r.Success? ==> Ordered(port, x, page.entries, r.value.1)
  {
    var edge := KeyEdge(spec, port, x, own, own[x] + d);
    var matched := Partition(spec, port, x, others) != {};
    var out;
    if !KeysScan(spec, port, x, edge, others) {
      KeysIdlePage(spec, port, own, others, counts, x, d, after, cursor, page, matched);
      return Success((counts, OwnOutput(spec.kind, port, x, d, matched), Done));
    }
    ghost var done := DoneAt(spec, port, x, others, cursor);
    PageCovers(spec, port, x, others, cursor, page);
    PartitionMeets(spec, port, x, others);
    forall y | y in page.entries
      ensures ChangesTo(spec.kind, spec.On(), port, own, x, after, y, KeyChange(spec, port, edge))
    {
      KeyChangeSound(spec, port, own, x, after, y);
    }
    out := EmitAlike(spec.kind, spec.On(), port, own, others, x, d, after, KeyChange(spec, port, edge), page.entries,
                     done);
    if page.continuation.Some? {
      EmittedFits(spec, port, own, others, x, after, cursor, page, out);
      return if FitsI64(out)
             then Success((counts, out, More(JoinCursor(false, page.continuation))))
             else Failure(OutputDifferenceOverflow);
    }
    MatchedByPartition(spec, port, x, others);
    CompletedBy(spec, port, own, others, x, after, done, Partition(spec, port, x, others), out, true);
    assert out + OwnOutput(spec.kind, port, x, d, true) == out;
    CompletedFits(spec, port, own, others, x, after, cursor, out);
    r := if FitsI64(out) then Success((counts, out, Done)) else Failure(OutputDifferenceOverflow);
  }
}
