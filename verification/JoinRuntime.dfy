/** The incremental equality join: two materialised relations, match counts, and bounded pages.
    Whatever the page boundaries and failures, the differences emitted so far add up to the
    join of the relations. */
module JoinRuntime {
  import opened Options
  import opened Sequences
  import opened Expressions
  import opened Relational
  import opened JoinWeights
  import opened JoinPages

  const U64_MAX: int := 0xffff_ffff_ffff_ffff

  datatype JoinError =
    | NegativeWeight
    | WeightOverflow
    | MatchCountOverflow
    | MatchCountUnderflow
    | InvalidMatchCount
    | OutputDifferenceOverflow

  datatype JoinResult<+T> = Success(value: T) | Failure(error: JoinError)

  /** Where the next page of an unfinished event starts. */
  datatype JoinCursor = JoinCursor(foundMatch: bool, resumeAfter: Option<Row>)

  const INITIAL_CURSOR := JoinCursor(false, None)

  datatype Progress = More(cursor: JoinCursor) | Done

  /** A bounded scan of an opposite partition. */
  datatype Page = Page(entries: seq<Row>, continuation: Option<Row>)

  /** An exact row's presence edge. */
  datatype KeyTransition = Steady | First | Last

  type CountKey = (nat, Row)

  function CountIn(counts: map<CountKey, nat>, port: nat, x: Row): nat
  {
    if (port, x) in counts then counts[(port, x)] else 0
  }

  /** Adds `amount` to a count on a first presence, takes it off on a last one; zero is stored as absence. */
  function AdjustCount(counts: map<CountKey, nat>, port: nat, x: Row, t: KeyTransition,
    amount: nat): JoinResult<map<CountKey, nat>>
  {
    var before := CountIn(counts, port, x);
    match t
    case Steady => Success(counts)
    case First =>
      if before + amount > U64_MAX then Failure(MatchCountOverflow)
      else Success(StoreCount(counts, port, x, before + amount))
    case Last =>
      if before < amount then Failure(MatchCountUnderflow) else Success(StoreCount(counts, port, x, before - amount))
  }

  function StoreCount(counts: map<CountKey, nat>, port: nat, x: Row, n: nat): (r: map<CountKey, nat>)
    ensures CountIn(r, port, x) == n
    ensures forall q: nat, y :: (q, y) != (port, x) ==> CountIn(r, q, y) == CountIn(counts, q, y)
    ensures r.Keys == if n > 0 then counts.Keys + {(port, x)} else counts.Keys - {(port, x)}
  {
    if n == 0 then counts - {(port, x)} else counts[(port, x) := n]
  }

  predicate AllValues(key: Row)
  {
    forall k :: 0 <= k < |key| ==> key[k].Val?
  }

  ghost function ConditionOf(leftKey: Row -> Row, rightKey: Row -> Row, residual: Option<(Row, Row) -> bool>): Condition
  {
    (l, r) => AllValues(leftKey(l)) && leftKey(l) == rightKey(r) && (residual.Some? ==> residual.value(l, r))
  }

  ghost predicate Unique(xs: seq<Row>)
  {
    forall j, k :: 0 <= j < k < |xs| ==> xs[j] != xs[k]
  }

  /** Rows of the partition at or before the cursor. */
  ghost function Before(order: (Row, Row) -> bool, partition: set<Row>, cursor: Option<Row>): set<Row>
  {
    if cursor.None? then {} else set y | y in partition && !order(cursor.value, y)
  }

  /** What a bounded ascending scan after `cursor` returns: everything up to its continuation. */
  ghost predicate PageOf(order: (Row, Row) -> bool, partition: set<Row>, cursor: Option<Row>, page: Page)
  {
    && Unique(page.entries)
    && (page.continuation.None? ==>
            forall y :: y in page.entries <==> y in partition && y !in Before(order, partition, cursor))
    && (page.continuation.Some? ==>
            forall y :: y in page.entries <==>
              && y in partition && y !in Before(order, partition, cursor)
              && y in Before(order, partition, page.continuation))
    && (page.continuation.Some? ==>
            Before(order, partition, cursor) <= Before(order, partition, page.continuation) && page.entries != [])
  }

  /** The rows of `others` that meet `x`. */
  ghost function Meeting(on: Condition, port: nat, x: Row, others: Bag): set<Row>
  {
    set y | y in others && Meets(on, port, x, y)
  }

  /** How many distinct rows of `others` meet `x`. */
  ghost function Support(on: Condition, port: nat, x: Row, others: Bag): nat
  {
    |Meeting(on, port, x, others)|
  }

  /** The same, among the rows in `done` only. */
  ghost function SupportIn(on: Condition, port: nat, x: Row, done: set<Row>): nat
  {
    |set y | y in done && Meets(on, port, x, y)|
  }

  ghost function Rows(m: Bag): set<Row>
  {
    set y | y in m
  }

  /** No support count is larger than the number of distinct rows. */
  lemma SupportBounded(on: Condition, port: nat, x: Row, others: Bag)
    ensures Support(on, port, x, others) <= |Rows(others)|
  {
    SubsetCard(Meeting(on, port, x, others), Rows(others));
  }

  /** Too many distinct rows for a 64-bit support count. */
  ghost predicate Crowded(own: Bag, others: Bag)
  {
    |Rows(own)| >= U64_MAX || |Rows(others)| > U64_MAX
  }

  lemma SupportPositive(on: Condition, port: nat, x: Row, others: Bag)
    ensures Support(on, port, x, others) > 0 <==> MeetsSome(on, port, x, others)
  {
    var s := Meeting(on, port, x, others);
    if MeetsSome(on, port, x, others) {
      var y :| y in others && Meets(on, port, x, y);
      assert y in s;
    }
    if |s| > 0 {
      var y :| y in s;
    }
  }

  /** The change of `x` moves the support of a row meeting it by one, at a presence edge. */
  lemma SupportMoves(on: Condition, port: nat, own: Bag, x: Row, after: nat, y: Row)
    requires port <= 1 && Meets(on, port, x, y)
    ensures var before, now := Support(on, 1 - port, y, own), Support(on, 1 - port, y, own[x := after]);
      now == before + (if own[x] == 0 && after > 0 then 1 else if own[x] > 0 && after == 0 then -1 else 0)
  {
    MeetsTurned(on, port, x, y);
    var s := Meeting(on, 1 - port, y, own);
    var s' := Meeting(on, 1 - port, y, own[x := after]);
    if own[x] == 0 && after > 0 {
      assert s' == s + {x};
    } else if own[x] > 0 && after == 0 {
      assert s == s' + {x};
    } else {
      assert s' == s;
    }
  }

  lemma SupportKept(on: Condition, port: nat, own: Bag, x: Row, after: nat, y: Row)
    requires port <= 1 && !Meets(on, port, x, y)
    ensures Support(on, 1 - port, y, own[x := after]) == Support(on, 1 - port, y, own)
  {
    MeetsTurned(on, port, x, y);
    assert Meeting(on, 1 - port, y, own) == Meeting(on, 1 - port, y, own[x := after]);
  }

  function EdgeOf(before: nat, after: nat): KeyTransition
  {
    if before == 0 && after > 0 then First else if before > 0 && after == 0 then Last else Steady
  }

  /** What the stored count of a row must be, given the relation it belongs to. */
  ghost function Stored(on: Condition, port: nat, own: Bag, others: Bag, x: Row): nat
  {
    if x in own then Support(on, port, x, others) else 0
  }

  ghost predicate SideSettled(on: Condition, side: nat, own: Bag, others: Bag, counts: map<CountKey, nat>)
  {
    forall x :: CountIn(counts, side, x) == Stored(on, side, own, others, x)
  }

  ghost predicate SideSettledBut(on: Condition, side: nat, own: Bag, others: Bag, counts: map<CountKey, nat>, x: Row)
  {
    forall z :: z != x ==> CountIn(counts, side, z) == Stored(on, side, own, others, z)
  }

  /** Counts of the opposite side: already adjusted exactly for the rows in `done`. */
  ghost predicate OppositeSide(on: Condition, side: nat, own: Bag, others: Bag, others': Bag, done: set<Row>,
                               counts: map<CountKey, nat>)
  {
    forall y ::
      CountIn(counts, side, y)
      == if y in done then Stored(on, side, own, others', y)
      else Stored(on, side, own, others, y)
  }

  /** Counts with no event in progress. */
  ghost predicate CountsSettled(kind: EquiJoinKind, on: Condition, left: Bag, right: Bag, counts: map<CountKey, nat>)
  {
    && (Tracks(kind, 0) ==> SideSettled(on, 0, left, right, counts))
    && (Tracks(kind, 1) ==> SideSettled(on, 1, right, left, counts))
  }

  /** The count of the changed row once the candidates in `done` have been seen. */
  ghost function OwnCount(on: Condition, port: nat, own: Bag, others: Bag, x: Row, after: nat, done: set<Row>): int
  {
    match EdgeOf(own[x], after)
    case First => SupportIn(on, port, x, done)
    case Last => Support(on, port, x, others) - SupportIn(on, port, x, done)
    case Steady => Stored(on, port, own, others, x)
  }

  /** Counts in the middle of an event. */
  ghost predicate CountsAt(kind: EquiJoinKind, on: Condition, port: nat, own: Bag, others: Bag, x: Row, after: nat,
                           done: set<Row>, counts: map<CountKey, nat>)
    requires port <= 1
  {
    && (Tracks(kind, port) ==> SideSettledBut(on, port, own, others, counts, x))
    && (Tracks(kind, port) ==> CountIn(counts, port, x) == OwnCount(on, port, own, others, x, after, done))
    && (Tracks(kind, 1 - port) ==> OppositeSide(on, 1 - port, others, own, own[x := after], done, counts))
  }

  lemma CountsBegin(kind: EquiJoinKind, on: Condition, port: nat, own: Bag, others: Bag, x: Row, after: nat,
                    counts: map<CountKey, nat>)
    requires port <= 1
    requires CountsSettled(kind, on, if port == 0 then own else others, if port == 0 then others else own, counts)
    ensures CountsAt(kind, on, port, own, others, x, after, {}, counts)
  {
    assert (set y | y in {} && Meets(on, port, x, y)) == {};
  }

  lemma OppositeSettled(on: Condition, port: nat, own: Bag, others: Bag, x: Row, after: nat, done: set<Row>,
                        counts: map<CountKey, nat>)
    requires port <= 1 && OppositeSide(on, 1 - port, others, own, own[x := after], done, counts)
    requires forall y :: y in others && Meets(on, port, x, y) ==> y in done
    ensures SideSettled(on, 1 - port, others, own[x := after], counts)
  {
    var side := 1 - port;
    forall y
      ensures CountIn(counts, side, y) == Stored(on, side, others, own[x := after], y)
    {
      if y !in done && y in others {
        SupportKept(on, port, own, x, after, y);
      }
    }
  }

  lemma OwnSettled(on: Condition, port: nat, own: Bag, others: Bag, x: Row, after: nat, done: set<Row>,
                   counts: map<CountKey, nat>)
    requires SideSettledBut(on, port, own, others, counts, x)
    requires CountIn(counts, port, x) == OwnCount(on, port, own, others, x, after, done)
    requires forall y :: y in done && Meets(on, port, x, y) <==> y in others && Meets(on, port, x, y)
    ensures SideSettled(on, port, own[x := after], others, counts)
  {
    assert (set y | y in done && Meets(on, port, x, y)) == Meeting(on, port, x, others);
    forall z
      ensures CountIn(counts, port, z) == Stored(on, port, own[x := after], others, z)
    {
    }
  }

  lemma CountsEnd(kind: EquiJoinKind, on: Condition, port: nat, own: Bag, others: Bag, x: Row, after: nat,
                  done: set<Row>, counts: map<CountKey, nat>)
    requires port <= 1 && CountsAt(kind, on, port, own, others, x, after, done, counts)
    requires forall y :: y in done && Meets(on, port, x, y) <==> y in others && Meets(on, port, x, y)
    ensures var own' := own[x := after];
      CountsSettled(kind, on, if port == 0 then own' else others, if port == 0 then others else own', counts)
  {
    if Tracks(kind, port) {
      OwnSettled(on, port, own, others, x, after, done, counts);
    }
    if Tracks(kind, 1 - port) {
      OppositeSettled(on, port, own, others, x, after, done, counts);
    }
  }

  // ---- The candidates of one page -----------------------------------------

  ghost function Elements(xs: seq<Row>): set<Row>
  {
    set y | y in xs
  }

  lemma ElementsAppend(xs: seq<Row>, k: nat)
    requires k < |xs|
    ensures Elements(xs[..k + 1]) == Elements(xs[..k]) + {xs[k]}
  {
    assert xs[..k + 1] == xs[..k] + [xs[k]];
  }

  /** The transition read off the stored counts is the change of matched status. */
  lemma CountTransition(on: Condition, port: nat, own: Bag, others: Bag, x: Row, after: nat, y: Row)
    requires port <= 1 && Meets(on, port, x, y) && y in others
    ensures var before, now := Stored(on, 1 - port, others, own, y), Stored(on, 1 - port, others, own[x := after], y);
      && TransitionOf(before > 0, now > 0)
          == TransitionOf(MeetsSome(on, 1 - port, y, own), MeetsSome(on, 1 - port, y, own[x := after]))
      && (EdgeOf(own[x], after).First? ==> now == before + 1)
      && (EdgeOf(own[x], after).Last? ==> now == before - 1)
      && (EdgeOf(own[x], after).Steady? ==> now == before)
  {
    SupportMoves(on, port, own, x, after, y);
    SupportPositive(on, 1 - port, y, own);
    SupportPositive(on, 1 - port, y, own[x := after]);
  }

  lemma OppositeAdjusted(on: Condition, side: nat, own: Bag, others: Bag, others': Bag, done: set<Row>,
                         counts: map<CountKey, nat>, y: Row, counts': map<CountKey, nat>)
    requires OppositeSide(on, side, own, others, others', done, counts)
    requires CountIn(counts', side, y) == Stored(on, side, own, others', y)
    requires forall z :: z != y ==> CountIn(counts', side, z) == CountIn(counts, side, z)
    ensures OppositeSide(on, side, own, others, others', done + {y}, counts')
  {
    forall z
      ensures CountIn(counts', side, z)
          == if z in done + {y} then Stored(on, side, own, others', z) else Stored(on, side, own, others, z)
    {
      assert z != y ==> CountIn(counts', side, z) == CountIn(counts, side, z);
    }
  }

  /** Updates the support of one match and reports its transition. */
  method AdjustMatch(kind: EquiJoinKind, ghost on: Condition, port: nat, ghost own: Bag, ghost others: Bag, x: Row,
                     ghost after: nat, edge: KeyTransition, ghost done: set<Row>, y: Row, counts: map<CountKey, nat>)
    returns (r: JoinResult<(map<CountKey, nat>, MatchTransition)>)
    requires port <= 1 && Meets(on, port, x, y) && y in others && y !in done && edge == EdgeOf(own[x], after)
    requires Tracks(kind, 1 - port) ==> OppositeSide(on, 1 - port, others, own, own[x := after], done, counts)
    ensures r.Failure? ==> r.error == MatchCountOverflow && Crowded(own, others)
    ensures r.Success? ==> forall z :: CountIn(r.value.0, port, z) == CountIn(counts, port, z)
    ensures r.Success? && Tracks(kind, 1 - port) ==>
      OppositeSide(on, 1 - port, others, own, own[x := after], done + {y}, r.value.0)
    ensures r.Success? ==> ChangesTo(kind, on, port, own, x, after, y, r.value.1)
  {
    CountTransition(on, port, own, others, x, after, y);
    if !Tracks(kind, 1 - port) {
      return Success((counts, Unchanged));
    }
    assert CountIn(counts, 1 - port, y) == Stored(on, 1 - port, others, own, y);
    if edge.Steady? {
      OppositeAdjusted(on, 1 - port, others, own, own[x := after], done, counts, y, counts);
      return Success((counts, Unchanged));
    }
    SupportBounded(on, 1 - port, y, own);
    var adjusted := AdjustCount(counts, 1 - port, y, edge, 1);
    if adjusted.Failure? {
      return Failure(adjusted.error);
    }
    var counts' := adjusted.value;
    OppositeAdjusted(on, 1 - port, others, own, own[x := after], done, counts, y, counts');
    r := Success((counts', TransitionOf(CountIn(counts, 1 - port, y) > 0, CountIn(counts', 1 - port, y) > 0)));
  }

  /** `out` takes every fragment from its weight at `done` to its weight at `so`. */
  ghost predicate Emitted(kind: EquiJoinKind, on: Condition, port: nat, own: Bag, others: Bag, x: Row, after: nat,
                          done: set<Row>, so: set<Row>, out: Output)
    requires port <= 1
  {
    forall f ::
      Expected(kind, on, port, own, others, x, after, done, f) + Net(out, f)
      == Expected(kind, on, port, own, others, x, after, so, f)
  }

  /** Every difference in `out` is the whole shift of a fragment that lies between `done` and `so`,
      and none is zero or of a fragment that came before. */
  ghost predicate Listed(kind: EquiJoinKind, on: Condition, port: nat, own: Bag, others: Bag, x: Row, after: nat,
                         done: set<Row>, so: set<Row>, out: Output)
    requires port <= 1
  {
    && Shifts(kind, on, port, own, others, x, after, done, out) && Proper(out)
    && forall k :: 0 <= k < |out| ==> Moves(port, x, so, out[k].0)
  }

  /** Qualifying candidates that are distinct and not yet processed. */
  ghost predicate FreshMatches(on: Condition, port: nat, x: Row, others: Bag, done: set<Row>, matches: seq<Row>)
  {
    Unique(matches) && forall y :: y in matches ==> y in others && y !in done && Meets(on, port, x, y)
  }

  lemma EmittedMore(kind: EquiJoinKind, on: Condition, port: nat, own: Bag, others: Bag, x: Row, after: nat,
                    done: set<Row>, so: set<Row>, y: Row, t: MatchTransition, out: Output, more: Output)
    requires port <= 1 && y !in so && Meets(on, port, x, y)
    requires ChangesTo(kind, on, port, own, x, after, y, t)
    requires more == CandidateOutput(kind, port, x, after - own[x], y, others[y], t)
    requires Emitted(kind, on, port, own, others, x, after, done, so, out)
    ensures Emitted(kind, on, port, own, others, x, after, done, so + {y}, out + more)
  {
    forall f
      ensures Expected(kind, on, port, own, others, x, after, done, f) + Net(out + more, f)
          == Expected(kind, on, port, own, others, x, after, so + {y}, f)
    {
      NetConcat(out, more, f);
      QualifyingStep(kind, on, port, own, others, x, after, so, y, t, f);
    }
  }

  lemma ListedMore(kind: EquiJoinKind, on: Condition, port: nat, own: Bag, others: Bag, x: Row, after: nat,
                   done: set<Row>, so: set<Row>, y: Row, t: MatchTransition, out: Output, more: Output)
    requires port <= 1 && done <= so && y !in so && Meets(on, port, x, y) && y in others && after != own[x]
    requires ChangesTo(kind, on, port, own, x, after, y, t)
    requires more == CandidateOutput(kind, port, x, after - own[x], y, others[y], t)
    requires Listed(kind, on, port, own, others, x, after, done, so, out)
    ensures Listed(kind, on, port, own, others, x, after, done, so + {y}, out + more)
  {
    CandidateShifts(kind, on, port, own, others, x, after, done, y, t);
    CandidateShifts(kind, on, port, own, others, x, after, so, y, t);
    CandidateProper(kind, port, x, after - own[x], y, others[y], t);
    ProperMore(port, x, so, out, more);
    assert y in so + {y};
    forall k | 0 <= k < |out + more|
      ensures Moves(port, x, so + {y}, (out + more)[k].0)
    {
      if k < |out| {
        MovesMore(port, x, so, y, out[k].0);
      }
    }
  }

  /** One more match takes its turn. */
  lemma NextTurn(kind: EquiJoinKind, on: Condition, port: nat, own: Bag, others: Bag, x: Row, after: nat,
                 t: MatchTransition, matches: seq<Row>, k: nat, out: Output)
    requires port <= 1 && k < |matches| && after != own[x] && matches[k] in others
    requires ChangesTo(kind, on, port, own, x, after, matches[k], t) && Turns(port, x, matches, k, out)
    ensures Turns(port, x, matches, k + 1,
                  out + CandidateOutput(kind, port, x, after - own[x], matches[k], others[matches[k]], t))
  {
    CandidateInTurn(kind, on, port, own, x, after, matches[k], others[matches[k]], t);
    TurnsMore(port, x, matches, k, out,
              CandidateOutput(kind, port, x, after - own[x], matches[k], others[matches[k]], t));
  }

  /** The first `k` matches have been emitted, in order. */
  ghost predicate EmittedFirst(kind: EquiJoinKind, on: Condition, port: nat, own: Bag, others: Bag, x: Row, after: nat,
                               done: set<Row>, matches: seq<Row>, k: nat, out: Output)
    requires port <= 1 && k <= |matches|
  {
    && Emitted(kind, on, port, own, others, x, after, done, done + Elements(matches[..k]), out)
    && Listed(kind, on, port, own, others, x, after, done, done + Elements(matches[..k]), out)
    && Turns(port, x, matches, k, out)
  }

  /** One more match, with the transition it makes. */
  lemma MatchMore(kind: EquiJoinKind, on: Condition, port: nat, own: Bag, others: Bag, x: Row, after: nat,
                  done: set<Row>, t: MatchTransition, matches: seq<Row>, k: nat, out: Output, more: Output)
    requires port <= 1 && k < |matches| && after != own[x] && FreshMatches(on, port, x, others, done, matches)
    requires ChangesTo(kind, on, port, own, x, after, matches[k], t)
    requires more == CandidateOutput(kind, port, x, after - own[x], matches[k], others[matches[k]], t)
    requires EmittedFirst(kind, on, port, own, others, x, after, done, matches, k, out)
    ensures EmittedFirst(kind, on, port, own, others, x, after, done, matches, k + 1, out + more)
  {
    var so := done + Elements(matches[..k]);
    ElementsAppend(matches, k);
    assert done + Elements(matches[..k + 1]) == so + {matches[k]};
    EmittedMore(kind, on, port, own, others, x, after, done, so, matches[k], t, out, more);
    ListedMore(kind, on, port, own, others, x, after, done, so, matches[k], t, out, more);
    NextTurn(kind, on, port, own, others, x, after, t, matches, k, out);
  }

  lemma NoneEmitted(kind: EquiJoinKind, on: Condition, port: nat, own: Bag, others: Bag, x: Row, after: nat,
                    done: set<Row>, matches: seq<Row>)
    requires port <= 1
    ensures EmittedFirst(kind, on, port, own, others, x, after, done, matches, 0, [])
  {
    NoTurns(port, x, matches, 0);
  }

  /** Updates the support of one match and appends what it emits. */
  method EmitMatch(kind: EquiJoinKind, ghost on: Condition, port: nat, ghost own: Bag, others: Bag, x: Row, d: int,
                   ghost after: nat, edge: KeyTransition, matches: seq<Row>, k: nat, ghost done: set<Row>,
                   counts: map<CountKey, nat>, out: Output)
    returns (r: JoinResult<(map<CountKey, nat>, Output)>)
    requires port <= 1 && d == after - own[x] != 0 && edge == EdgeOf(own[x], after)
    requires k < |matches| && FreshMatches(on, port, x, others, done, matches)
    requires Tracks(kind, 1 - port) ==>
      OppositeSide(on, 1 - port, others, own, own[x := after], done + Elements(matches[..k]), counts)
    requires EmittedFirst(kind, on, port, own, others, x, after, done, matches, k, out)
    ensures r.Failure? ==> r.error == MatchCountOverflow && Crowded(own, others)
    ensures r.Success? ==> forall z :: CountIn(r.value.0, port, z) == CountIn(counts, port, z)
    ensures r.Success? && Tracks(kind, 1 - port) ==>
      OppositeSide(on, 1 - port, others, own, own[x := after], done + Elements(matches[..k + 1]), r.value.0)
    ensures r.Success? ==> EmittedFirst(kind, on, port, own, others, x, after, done, matches, k + 1, r.value.1)
  {
    var y := matches[k];
    ghost var so := done + Elements(matches[..k]);
    ElementsAppend(matches, k);
    assert done + Elements(matches[..k + 1]) == so + {y};
    var adjusted := AdjustMatch(kind, on, port, own, others, x, after, edge, so, y, counts);
    if adjusted.Failure? {
      return Failure(adjusted.error);
    }
    var more := CandidateOutput(kind, port, x, d, y, others[y], adjusted.value.1);
    MatchMore(kind, on, port, own, others, x, after, done, adjusted.value.1, matches, k, out, more);
    r := Success((adjusted.value.0, out + more));
  }

  /** Emits the matches of a page in order, updating the support of each. */
  method EmitMatches(kind: EquiJoinKind, ghost on: Condition, port: nat, ghost own: Bag, others: Bag, x: Row, d: int,
                     ghost after: nat, edge: KeyTransition, matches: seq<Row>, ghost done: set<Row>,
                     counts0: map<CountKey, nat>)
    returns (r: JoinResult<(map<CountKey, nat>, Output)>)
    requires port <= 1 && FreshMatches(on, port, x, others, done, matches) && d == after - own[x] != 0
    requires edge == EdgeOf(own[x], after)
    requires Tracks(kind, 1 - port) ==> OppositeSide(on, 1 - port, others, own, own[x := after], done, counts0)
    ensures r.Failure? ==> r.error == MatchCountOverflow && Crowded(own, others)
    ensures r.Success? ==> forall z :: CountIn(r.value.0, port, z) == CountIn(counts0, port, z)
    ensures r.Success? && Tracks(kind, 1 - port) ==>
      OppositeSide(on, 1 - port, others, own, own[x := after], done + Elements(matches), r.value.0)
    ensures r.Success? ==> Emitted(kind, on, port, own, others, x, after, done, done + Elements(matches), r.value.1)
    ensures r.Success? ==> Listed(kind, on, port, own, others, x, after, done, done + Elements(matches), r.value.1)
    ensures r.Success? ==> Turns(port, x, matches, |matches|, r.value.1)
  {
    var counts, out := counts0, [];
    NoneEmitted(kind, on, port, own, others, x, after, done, matches);
    assert done + Elements(matches[..0]) == done;
    for k := 0 to |matches|
      invariant forall z :: CountIn(counts, port, z) == CountIn(counts0, port, z)
      invariant Tracks(kind, 1 - port) ==>
        OppositeSide(on, 1 - port, others, own, own[x := after], done + Elements(matches[..k]), counts)
      invariant EmittedFirst(kind, on, port, own, others, x, after, done, matches, k, out)
    {
      var emitted := EmitMatch(kind, on, port, own, others, x, d, after, edge, matches, k, done, counts, out);
      if emitted.Failure? {
        return Failure(emitted.error);
      }
      counts, out := emitted.value.0, emitted.value.1;
    }
    assert matches[..|matches|] == matches;
    r := Success((counts, out));
  }

  /** Candidates that do not meet the row can be counted as processed for free. */
  lemma RejectedFree(kind: EquiJoinKind, on: Condition, port: nat, own: Bag, others: Bag, x: Row, after: nat,
                     done: set<Row>, done': set<Row>, f: Fragment)
    requires port <= 1 && done <= done' && forall y :: y in done' && y !in done ==> !Meets(on, port, x, y)
    ensures Expected(kind, on, port, own, others, x, after, done, f)
        == Expected(kind, on, port, own, others, x, after, done', f)
  {
    if Moves(port, x, done', f) && !Moves(port, x, done, f) {
      var y :| y in done' && (f == PairOf(port, x, y) || f == AloneOf(1 - port, y));
      RejectedStep(kind, on, port, own, others, x, after, {}, y, f);
      assert y in {} + {y};
    }
  }

  lemma RejectedCounts(kind: EquiJoinKind, on: Condition, port: nat, own: Bag, others: Bag, x: Row, after: nat,
                       done: set<Row>, done': set<Row>, counts: map<CountKey, nat>)
    requires port <= 1 && done <= done' && forall y :: y in done' && y !in done ==> !Meets(on, port, x, y)
    requires CountsAt(kind, on, port, own, others, x, after, done, counts)
    ensures CountsAt(kind, on, port, own, others, x, after, done', counts)
  {
    assert (set y | y in done && Meets(on, port, x, y)) == (set y | y in done' && Meets(on, port, x, y));
    if Tracks(kind, 1 - port) {
      var side := 1 - port;
      forall y
        ensures CountIn(counts, side, y)
            == if y in done' then Stored(on, side, others, own[x := after], y) else Stored(on, side, others, own, y)
      {
        if y in done' && y !in done {
          SupportKept(on, port, own, x, after, y);
        }
      }
    }
  }

  lemma {:induction false} UniqueCard(xs: seq<Row>)
    requires Unique(xs)
    ensures |Elements(xs)| == |xs|
  {
    if xs != [] {
      var k := |xs| - 1;
      UniqueCard(xs[..k]);
      ElementsAppend(xs, k);
      assert xs[..k + 1] == xs;
      assert xs[k] !in Elements(xs[..k]);
    }
  }

  lemma SupportInMany(on: Condition, port: nat, x: Row, others: Bag, done: set<Row>, matches: seq<Row>)
    requires FreshMatches(on, port, x, others, done, matches)
    ensures SupportIn(on, port, x, done + Elements(matches)) == SupportIn(on, port, x, done) + |matches|
  {
    var s := set y | y in done && Meets(on, port, x, y);
    assert (set y | y in done + Elements(matches) && Meets(on, port, x, y)) == s + Elements(matches);
    UniqueCard(matches);
  }

  lemma SubsetCard(a: set<Row>, b: set<Row>)
    requires a <= b
    ensures |a| <= |b|
  {
    assert b == a + (b - a);
  }

  lemma SupportInBound(on: Condition, port: nat, x: Row, others: Bag, done: set<Row>)
    requires forall y :: y in done ==> y in others
    ensures SupportIn(on, port, x, done) <= Support(on, port, x, others)
  {
    SubsetCard((set y | y in done && Meets(on, port, x, y)), Meeting(on, port, x, others));
  }

  /** The changed row's own count after a page: never short of what is taken off it. */
  lemma OwnAdjusts(on: Condition, port: nat, own: Bag, others: Bag, x: Row, after: nat, done: set<Row>,
                   matches: seq<Row>)
    requires FreshMatches(on, port, x, others, done, matches) && forall y :: y in done ==> y in others
    ensures OwnCount(on, port, own, others, x, after, done) >= 0
    ensures match EdgeOf(own[x], after)
      case First =>
        OwnCount(on, port, own, others, x, after, done + Elements(matches))
          == OwnCount(on, port, own, others, x, after, done) + |matches|
      case Last =>
        OwnCount(on, port, own, others, x, after, done + Elements(matches))
          == OwnCount(on, port, own, others, x, after, done) - |matches| >= 0
      case Steady =>
        OwnCount(on, port, own, others, x, after, done + Elements(matches))
          == OwnCount(on, port, own, others, x, after, done)
  {
    SupportInMany(on, port, x, others, done, matches);
    SupportInBound(on, port, x, others, done);
    SupportInBound(on, port, x, others, done + Elements(matches));
  }

  /** The rows of a page that meet the residual. */
  function Qualifying(q: Row -> bool, entries: seq<Row>): (r: seq<Row>)
    ensures forall y :: y in r <==> y in entries && q(y)
    ensures Unique(entries) ==> Unique(r)
  {
    if entries == [] then []
    else
      var k := |entries| - 1;
      assert entries == entries[..k] + [entries[k]];
      var rest := Qualifying(q, entries[..k]);
      if q(entries[k]) then
        assert Unique(entries) ==> Unique(entries[..k]) && entries[k] !in entries[..k];
        rest + [entries[k]]
      else rest
  }

  /** Where the qualifying rows stand among the rows of a page: in the same order. */
  lemma {:induction false} QualifyingAt(q: Row -> bool, entries: seq<Row>) returns (at: seq<nat>)
    ensures |at| == |Qualifying(q, entries)| && Increasing(at)
    ensures forall k :: 0 <= k < |at| ==> at[k] < |entries| && entries[at[k]] == Qualifying(q, entries)[k]
  {
    if entries == [] {
      at := [];
    } else {
      var n := |entries| - 1;
      at := QualifyingAt(q, entries[..n]);
      if q(entries[n]) {
        at := at + [n];
      }
    }
  }

  /** Emits matches that all make the same transition. */
  method EmitAlike(kind: EquiJoinKind, ghost on: Condition, port: nat, ghost own: Bag, others: Bag, x: Row, d: int,
                   ghost after: nat, t: MatchTransition, matches: seq<Row>, ghost done: set<Row>)
    returns (out: Output)
    requires port <= 1 && FreshMatches(on, port, x, others, done, matches) && d == after - own[x] != 0
    requires forall y :: y in matches ==> ChangesTo(kind, on, port, own, x, after, y, t)
    ensures Emitted(kind, on, port, own, others, x, after, done, done + Elements(matches), out)
    ensures Listed(kind, on, port, own, others, x, after, done, done + Elements(matches), out)
    ensures Turns(port, x, matches, |matches|, out)
  {
    out := [];
    NoneEmitted(kind, on, port, own, others, x, after, done, matches);
    for k := 0 to |matches|
      invariant EmittedFirst(kind, on, port, own, others, x, after, done, matches, k, out)
    {
      var y := matches[k];
      assert ChangesTo(kind, on, port, own, x, after, y, t);
      var more := CandidateOutput(kind, port, x, d, y, others[y], t);
      MatchMore(kind, on, port, own, others, x, after, done, t, matches, k, out, more);
      out := out + more;
    }
    assert matches[..|matches|] == matches;
  }
}
