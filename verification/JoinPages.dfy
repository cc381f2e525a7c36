/** What one page of an equality join emits, and why the emitted differences add up. */
module JoinPages {
  import opened Options
  import opened Sequences
  import opened Expressions
  import opened Relational
  import opened JoinWeights

  type Output = seq<(Fragment, int)>

  /** The sum of the first `n` differences, as far as they are emitted for one fragment. */
  ghost function NetTo(out: Output, n: nat, f: Fragment): int
    requires n <= |out|
  {
    if n == 0 then 0 else NetTo(out, n - 1, f) + if out[n - 1].0 == f then out[n - 1].1 else 0
  }

  /** The sum of the differences emitted for one fragment. */
  ghost function Net(out: Output, f: Fragment): int
  {
    NetTo(out, |out|, f)
  }

  lemma {:induction false} NetPrefix(a: Output, b: Output, n: nat, f: Fragment)
    requires n <= |a|
    ensures NetTo(a + b, n, f) == NetTo(a, n, f)
  {
    if n > 0 {
      NetPrefix(a, b, n - 1, f);
    }
  }

  lemma {:induction false} NetSuffix(a: Output, b: Output, n: nat, f: Fragment)
    requires n <= |b|
    ensures NetTo(a + b, |a| + n, f) == Net(a, f) + NetTo(b, n, f)
  {
    if n == 0 {
      NetPrefix(a, b, |a|, f);
    } else {
      NetSuffix(a, b, n - 1, f);
    }
  }

  lemma NetConcat(a: Output, b: Output, f: Fragment)
    ensures Net(a + b, f) == Net(a, f) + Net(b, f)
  {
    NetSuffix(a, b, |b|, f);
  }

  lemma NetOne(g: Fragment, d: int, f: Fragment)
    ensures Net([(g, d)], f) == if g == f then d else 0
  {
    assert NetTo([(g, d)], 0, f) == 0;
  }

  /** What happens to an opposite row's matched status. */
  datatype MatchTransition = Unchanged | BecameMatched | BecameUnmatched

  function TransitionOf(before: bool, now: bool): MatchTransition
  {
    if !before && now then BecameMatched else if before && !now then BecameUnmatched else Unchanged
  }

  /** Ports whose rows appear or disappear on their own with their matched status. */
  predicate Tracks(kind: EquiJoinKind, port: nat)
  {
    match kind
    case InnerJoin => false
    case FullOuterJoin => true
    case _ => port == 0
  }

  function Product(d: int, w: nat): int
  {
    d * w
  }

  /** The difference that an opposite row on its own takes on becoming matched. */
  function Correction(kind: EquiJoinKind, w: nat): int
  {
    if kind.LeftSemiJoin? then w else 0 - w
  }

  /** One qualifying candidate: its correction and its pair, in the order they are emitted. */
  function CandidateOutput(kind: EquiJoinKind, port: nat, x: Row, d: int, y: Row, w: nat, t: MatchTransition): Output
    requires port <= 1
  {
    (if t.BecameMatched? then [(AloneOf(1 - port, y), Correction(kind, w))] else [])
    + (if !kind.LeftOnly() then [(PairOf(port, x, y), Product(d, w))] else [])
    + (if t.BecameUnmatched? then [(AloneOf(1 - port, y), -Correction(kind, w))] else [])
  }

  lemma CandidateNet(kind: EquiJoinKind, port: nat, x: Row, d: int, y: Row, w: nat, t: MatchTransition, f: Fragment)
    requires port <= 1
    ensures Net(CandidateOutput(kind, port, x, d, y, w, t), f) ==
      if f == AloneOf(1 - port, y)
        then (if t.BecameMatched? then Correction(kind, w)
        else if t.BecameUnmatched? then -Correction(kind, w)
        else 0)
      else if f == PairOf(port, x, y) && !kind.LeftOnly() then Product(d, w)
      else 0
  {
    var a := if t.BecameMatched? then [(AloneOf(1 - port, y), Correction(kind, w))] else [];
    var b := if !kind.LeftOnly() then [(PairOf(port, x, y), Product(d, w))] else [];
    var c := if t.BecameUnmatched? then [(AloneOf(1 - port, y), -Correction(kind, w))] else [];
    NetConcat(a + b, c, f);
    NetConcat(a, b, f);
    NetOne(AloneOf(1 - port, y), Correction(kind, w), f);
    NetOne(PairOf(port, x, y), Product(d, w), f);
    NetOne(AloneOf(1 - port, y), -Correction(kind, w), f);
  }

  /** The weight of `f` once the candidates in `done` have been processed. */
  ghost function Expected(kind: EquiJoinKind, on: Condition, port: nat, own: Bag, others: Bag, x: Row, after: nat,
                          done: set<Row>, f: Fragment): nat
    requires port <= 1
  {
    if Moves(port, x, done, f) then WeightAt(kind, on, port, own[x := after], others, f)
    else WeightAt(kind, on, port, own, others, f)
  }

  lemma MovesMore(port: nat, x: Row, done: set<Row>, y: Row, f: Fragment)
    requires port <= 1
    ensures Moves(port, x, done + {y}, f)
        <==> Moves(port, x, done, f) || f == PairOf(port, x, y) || f == AloneOf(1 - port, y)
    ensures y !in done ==> !Moves(port, x, done, PairOf(port, x, y)) && !Moves(port, x, done, AloneOf(1 - port, y))
  {
    if f == PairOf(port, x, y) || f == AloneOf(1 - port, y) {
      assert y in done + {y};
    }
    if Moves(port, x, done, f) {
      var z :| z in done && (f == PairOf(port, x, z) || f == AloneOf(1 - port, z));
      assert z in done + {y};
    }
  }

  /** How far an event moves the weight of a fragment. */
  ghost function Shift(kind: EquiJoinKind, on: Condition, port: nat, own: Bag, others: Bag, x: Row, after: nat,
                       f: Fragment): int
  {
    WeightAt(kind, on, port, own[x := after], others, f) - WeightAt(kind, on, port, own, others, f)
  }

  /** What happens to the matched status of the opposite row `y`, where the join kind tracks it. */
  ghost predicate ChangesTo(kind: EquiJoinKind, on: Condition, port: nat, own: Bag, x: Row, after: nat, y: Row,
                            t: MatchTransition)
    requires port <= 1
  {
    t == if Tracks(kind, 1 - port)
         then TransitionOf(MeetsSome(on, 1 - port, y, own), MeetsSome(on, 1 - port, y, own[x := after]))
         else Unchanged
  }

  /** The difference that an opposite row on its own takes with a transition. */
  function AloneDifference(kind: EquiJoinKind, t: MatchTransition, w: nat): int
  {
    match t
    case BecameMatched => Correction(kind, w)
    case BecameUnmatched => -Correction(kind, w)
    case Unchanged => 0
  }

  /** The correction emitted for an opposite row is exactly how its weight on its own moves. */
  lemma CorrectionSound(kind: EquiJoinKind, on: Condition, port: nat, own: Bag, others: Bag, x: Row, after: nat, y: Row,
                        t: MatchTransition)
    requires port <= 1 && ChangesTo(kind, on, port, own, x, after, y, t)
    ensures Shift(kind, on, port, own, others, x, after, AloneOf(1 - port, y)) == AloneDifference(kind, t, others[y])
  {
    OppositeMoves(kind, on, port, own, others, x, after, y);
  }

  lemma QualifyingPair(kind: EquiJoinKind, on: Condition, port: nat, own: Bag, others: Bag, x: Row, after: nat, y: Row)
    requires port <= 1 && Meets(on, port, x, y)
    ensures Shift(kind, on, port, own, others, x, after, PairOf(port, x, y))
         == if kind.LeftOnly() then 0 else Product(after - own[x], others[y])
  {
    PairMoves(kind, on, port, own, others, x, after, y);
  }

  /** What one qualifying candidate emits is the shift of its two fragments. */
  lemma QualifyingNet(kind: EquiJoinKind, on: Condition, port: nat, own: Bag, others: Bag, x: Row, after: nat, y: Row,
                      t: MatchTransition, f: Fragment)
    requires port <= 1 && Meets(on, port, x, y) && ChangesTo(kind, on, port, own, x, after, y, t)
    ensures Net(CandidateOutput(kind, port, x, after - own[x], y, others[y], t), f)
         == if f == PairOf(port, x, y) || f == AloneOf(1 - port, y)
            then Shift(kind, on, port, own, others, x, after, f)
            else 0
  {
    CandidateNet(kind, port, x, after - own[x], y, others[y], t, f);
    CorrectionSound(kind, on, port, own, others, x, after, y, t);
    QualifyingPair(kind, on, port, own, others, x, after, y);
  }

  /** One more candidate moves its two fragments, and only those. */
  lemma ExpectedStep(kind: EquiJoinKind, on: Condition, port: nat, own: Bag, others: Bag, x: Row, after: nat,
                     done: set<Row>, y: Row, f: Fragment)
    requires port <= 1 && y !in done
    ensures Expected(kind, on, port, own, others, x, after, done + {y}, f)
         == Expected(kind, on, port, own, others, x, after, done, f)
          + if f == PairOf(port, x, y) || f == AloneOf(1 - port, y)
            then Shift(kind, on, port, own, others, x, after, f)
            else 0
  {
    MovesMore(port, x, done, y, f);
  }

  /** Processing one qualifying candidate moves its fragments, and only its fragments. */
  lemma QualifyingStep(kind: EquiJoinKind, on: Condition, port: nat, own: Bag, others: Bag, x: Row, after: nat,
                       done: set<Row>, y: Row, t: MatchTransition, f: Fragment)
    requires port <= 1 && y !in done && Meets(on, port, x, y) && ChangesTo(kind, on, port, own, x, after, y, t)
    ensures Expected(kind, on, port, own, others, x, after, done, f)
          + Net(CandidateOutput(kind, port, x, after - own[x], y, others[y], t), f)
         == Expected(kind, on, port, own, others, x, after, done + {y}, f)
  {
    QualifyingNet(kind, on, port, own, others, x, after, y, t, f);
    ExpectedStep(kind, on, port, own, others, x, after, done, y, f);
  }

  // ---- What fits into a page ----------------------------------------------

  const I64_MIN: int := -0x8000_0000_0000_0000
  const I64_MAX: int := 0x7fff_ffff_ffff_ffff

  predicate Fits(d: int)
  {
    I64_MIN <= d <= I64_MAX
  }

  /** Signed differences are 64 bits wide, on the input as on the output. */
  type Difference = d: int | Fits(d)

  predicate FitsI64(out: Output)
  {
    forall k :: 0 <= k < |out| ==> Fits(out[k].1)
  }

  /** The event moves this fragment's weight by more than a difference can hold. */
  ghost predicate Oversized(kind: EquiJoinKind, on: Condition, port: nat, own: Bag, others: Bag, x: Row, after: nat,
                            f: Fragment)
  {
    !Fits(Shift(kind, on, port, own, others, x, after, f))
  }

  /** Every emitted difference is the whole shift of a fragment that `done` has not moved yet. */
  ghost predicate Shifts(kind: EquiJoinKind, on: Condition, port: nat, own: Bag, others: Bag, x: Row, after: nat,
                         done: set<Row>, out: Output)
    requires port <= 1
  {
    forall k :: 0 <= k < |out| ==>
      !Moves(port, x, done, out[k].0) && out[k].1 == Shift(kind, on, port, own, others, x, after, out[k].0)
  }

  /** Something is said of no fragment twice, and of none that nothing changes. */
  ghost predicate Proper(out: Output)
  {
    && NonZero(out)
    && forall j, k :: 0 <= j < k < |out| ==> out[j].0 != out[k].0
  }

  /** Every entry is a change: no difference is zero. */
  ghost predicate NonZero(out: Output)
  {
    forall k :: 0 <= k < |out| ==> out[k].1 != 0
  }

  lemma ProperConcat(a: Output, b: Output)
    requires Proper(a) && Proper(b) && forall j, k :: 0 <= j < |a| && 0 <= k < |b| ==> a[j].0 != b[k].0
    ensures Proper(a + b)
  {
    forall j, k | 0 <= j < k < |a + b|
      ensures (a + b)[j].0 != (a + b)[k].0
    {
      if j < |a| && k >= |a| {
        assert a[j].0 != b[k - |a|].0;
      }
    }
  }

  lemma ProductNonZero(d: int, w: nat)
    requires d != 0 && w > 0
    ensures Product(d, w) != 0
  {
  }

  /** A candidate that is there shows its pair and its correction once each, and only changes. */
  lemma CandidateProper(kind: EquiJoinKind, port: nat, x: Row, d: int, y: Row, w: nat, t: MatchTransition)
    requires port <= 1 && d != 0 && w > 0
    ensures Proper(CandidateOutput(kind, port, x, d, y, w, t))
  {
    ProductNonZero(d, w);
  }

  /** What has been emitted stays apart from what the next candidate and the row itself add. */
  lemma ProperMore(port: nat, x: Row, so: set<Row>, out: Output, more: Output)
    requires port <= 1 && Proper(out) && Proper(more)
    requires forall k :: 0 <= k < |out| ==> Moves(port, x, so, out[k].0)
    requires forall k :: 0 <= k < |more| ==> !Moves(port, x, so, more[k].0)
    ensures Proper(out + more)
  {
    ProperConcat(out, more);
  }

  // ---- The order of a page -------------------------------------------------

  /** The difference is about the opposite row `y`: its pair with `x`, or `y` on its own. */
  predicate About(port: nat, x: Row, y: Row, f: Fragment)
    requires port <= 1
  {
    f == PairOf(port, x, y) || f == AloneOf(1 - port, y)
  }

  /** Entry `k` is about candidate `turns[k]`, one of the first `n`; candidates come in order, and of
      the two differences about one candidate the retraction comes first. */
  ghost predicate InTurn(port: nat, x: Row, ys: seq<Row>, n: nat, out: Output, turns: seq<nat>)
    requires port <= 1
  {
    && |turns| == |out| && n <= |ys|
    && (forall k :: 0 <= k < |out| ==> turns[k] < n && About(port, x, ys[turns[k]], out[k].0))
    && (forall j, k :: 0 <= j < k < |out| ==> turns[j] <= turns[k])
    && (forall j, k :: 0 <= j < k < |out| && turns[j] == turns[k] ==> out[j].1 < 0 < out[k].1)
  }

  ghost predicate Turns(port: nat, x: Row, ys: seq<Row>, n: nat, out: Output)
    requires port <= 1
  {
    exists turns :: InTurn(port, x, ys, n, out, turns)
  }

  /** The candidates of a page in the order in which they were scanned, and then the row itself. */
  ghost predicate Ordered(port: nat, x: Row, entries: seq<Row>, out: Output)
    requires port <= 1
  {
    || Turns(port, x, entries, |entries|, out)
    || (out != [] && out[|out| - 1].0 == AloneOf(port, x) && Turns(port, x, entries, |entries|, out[..|out| - 1]))
  }

  lemma NoTurns(port: nat, x: Row, ys: seq<Row>, n: nat)
    requires port <= 1 && n <= |ys|
    ensures Turns(port, x, ys, n, [])
  {
    assert InTurn(port, x, ys, n, [], []);
  }

  /** What one candidate emits is about it, and retracts before it inserts. */
  lemma CandidateInTurn(kind: EquiJoinKind, on: Condition, port: nat, own: Bag, x: Row, after: nat, y: Row, w: nat,
                        t: MatchTransition)
    requires port <= 1 && w > 0 && after != own[x] && ChangesTo(kind, on, port, own, x, after, y, t)
    ensures var out := CandidateOutput(kind, port, x, after - own[x], y, w, t);
      && |out| <= 2 && (forall k :: 0 <= k < |out| ==> About(port, x, y, out[k].0))
      && (|out| == 2 ==> out[0].1 < 0 < out[1].1)
  {
    var d := after - own[x];
    if t.BecameMatched? {
      var z :| z in own[x := after] && Meets(on, 1 - port, y, z);
      assert d > 0;
      ProductSign(d, w);
    }
    if t.BecameUnmatched? {
      var z :| z in own && Meets(on, 1 - port, y, z);
      assert d < 0;
      ProductSign(d, w);
    }
  }

  lemma ProductSign(d: int, w: nat)
    requires w > 0
    ensures d > 0 ==> Product(d, w) > 0
    ensures d < 0 ==> Product(d, w) < 0
  {
  }

  lemma TurnsMore(port: nat, x: Row, ys: seq<Row>, n: nat, out: Output, more: Output)
    requires port <= 1 && n < |ys| && Turns(port, x, ys, n, out)
    requires |more| <= 2 && (forall k :: 0 <= k < |more| ==> About(port, x, ys[n], more[k].0))
    requires |more| == 2 ==> more[0].1 < 0 < more[1].1
    ensures Turns(port, x, ys, n + 1, out + more)
  {
    var turns :| InTurn(port, x, ys, n, out, turns);
    var turns' := turns + seq(|more|, k => n);
    assert InTurn(port, x, ys, n + 1, out + more, turns');
  }

  /** Candidates that were picked in order are in order among all. */
  lemma TurnsAmong(port: nat, x: Row, ys: seq<Row>, zs: seq<Row>, at: seq<nat>, out: Output)
    requires port <= 1 && Turns(port, x, ys, |ys|, out) && |at| == |ys| && Increasing(at)
    requires forall k :: 0 <= k < |ys| ==> at[k] < |zs| && zs[at[k]] == ys[k]
    ensures Turns(port, x, zs, |zs|, out)
  {
    var turns :| InTurn(port, x, ys, |ys|, out, turns);
    var turns' := seq(|turns|, k requires 0 <= k < |turns| => at[turns[k]]);
    forall j, k | 0 <= j < k < |out|
      ensures turns'[j] <= turns'[k] && (turns'[j] == turns'[k] ==> turns[j] == turns[k])
    {
      assert turns[j] < turns[k] ==> at[turns[j]] < at[turns[k]];
    }
    assert InTurn(port, x, zs, |zs|, out, turns');
  }

  lemma OrderedThen(port: nat, x: Row, entries: seq<Row>, out: Output, own: Output)
    requires port <= 1 && Turns(port, x, entries, |entries|, out)
    requires |own| <= 1 && (own != [] ==> own[0].0 == AloneOf(port, x))
    ensures Ordered(port, x, entries, out + own)
  {
    if own == [] {
      assert out + own == out;
    } else {
      assert (out + own)[..|out + own| - 1] == out;
    }
  }

  /** A fragment with a net difference is emitted. */
  lemma {:induction false} NetOccurs(out: Output, n: nat, f: Fragment)
    requires n <= |out| && NetTo(out, n, f) != 0
    ensures exists k :: 0 <= k < n && out[k].0 == f
  {
    if out[n - 1].0 != f {
      NetOccurs(out, n - 1, f);
    }
  }

  /** The differences of one candidate are the shifts of its fragments. */
  lemma CandidateShifts(kind: EquiJoinKind, on: Condition, port: nat, own: Bag, others: Bag, x: Row, after: nat,
                        done: set<Row>, y: Row, t: MatchTransition)
    requires port <= 1 && y !in done && Meets(on, port, x, y) && ChangesTo(kind, on, port, own, x, after, y, t)
    ensures Shifts(kind, on, port, own, others, x, after, done,
                   CandidateOutput(kind, port, x, after - own[x], y, others[y], t))
  {
    MovesMore(port, x, done, y, AloneOf(1 - port, y));
    CorrectionSound(kind, on, port, own, others, x, after, y, t);
    QualifyingPair(kind, on, port, own, others, x, after, y);
  }

  /** What a page that accounts for `scope` emits fits exactly when no shift there is oversized. */
  lemma FitsUnlessOversized(kind: EquiJoinKind, on: Condition, port: nat, own: Bag, others: Bag, x: Row, after: nat,
                            done: set<Row>, scope: iset<Fragment>, out: Output)
    requires port <= 1 && Shifts(kind, on, port, own, others, x, after, done, out)
    requires forall k :: 0 <= k < |out| ==> out[k].0 in scope
    requires forall f :: f in scope ==> Net(out, f) == Shift(kind, on, port, own, others, x, after, f)
    ensures FitsI64(out) <==> forall f :: f in scope ==> !Oversized(kind, on, port, own, others, x, after, f)
  {
    forall f | f in scope && FitsI64(out)
      ensures Fits(Shift(kind, on, port, own, others, x, after, f))
    {
      if Net(out, f) != 0 {
        NetOccurs(out, |out|, f);
      }
    }
    if !FitsI64(out) {
      var k :| 0 <= k < |out| && !Fits(out[k].1);
      assert Oversized(kind, on, port, own, others, x, after, out[k].0);
    }
  }

  /** A candidate the residual rejects moves nothing. */
  lemma RejectedStep(kind: EquiJoinKind, on: Condition, port: nat, own: Bag, others: Bag, x: Row, after: nat,
                     done: set<Row>, y: Row, f: Fragment)
    requires port <= 1 && y !in done && !Meets(on, port, x, y)
    ensures Expected(kind, on, port, own, others, x, after, done, f)
        == Expected(kind, on, port, own, others, x, after, done + {y}, f)
  {
    MovesMore(port, x, done, y, f);
    if f == AloneOf(1 - port, y) {
      StatusKept(on, port, own, x, after, y);
      OppositeMoves(kind, on, port, own, others, x, after, y);
    } else if f == PairOf(port, x, y) {
      PairMoves(kind, on, port, own, others, x, after, y);
    }
  }

  /** The changed row on its own, emitted with the last page. */
  function OwnOutput(kind: EquiJoinKind, port: nat, x: Row, d: int, matched: bool): Output
  {
    if ShowsAlone(kind, port, matched) then [(AloneOf(port, x), d)] else []
  }

  /** With every candidate processed and the row itself emitted, every fragment has its new weight. */
  lemma FinalStep(kind: EquiJoinKind, on: Condition, port: nat, own: Bag, others: Bag, x: Row, after: nat,
                  done: set<Row>, f: Fragment)
    requires port <= 1 && forall y :: y in others && Meets(on, port, x, y) ==> y in done
    ensures Expected(kind, on, port, own, others, x, after, done, f)
          + Net(OwnOutput(kind, port, x, after - own[x], MeetsSome(on, port, x, others)), f)
         == WeightAt(kind, on, port, own[x := after], others, f)
  {
    var matched := MeetsSome(on, port, x, others);
    var d := after - own[x];
    AloneMoves(kind, on, port, own, others, x, after);
    NetOne(AloneOf(port, x), d, f);
    if f == AloneOf(port, x) {
      assert !Moves(port, x, done, f);
    } else if !Moves(port, x, done, f) {
      OthersStay(kind, on, port, own, others, x, after, done, f);
    }
  }

  /** When no opposite row's status changes and no pairs are shown, only the row itself moves. */
  lemma StableStep(kind: EquiJoinKind, on: Condition, port: nat, own: Bag, others: Bag, x: Row, after: nat, f: Fragment)
    requires port <= 1 && kind.LeftOnly()
    requires port == 0 || forall y :: MeetsSome(on, 0, y, own[x := after]) == MeetsSome(on, 0, y, own)
    ensures WeightAt(kind, on, port, own, others, f) + Net(OwnOutput(kind, port, x, after - own[x],
                                                                     MeetsSome(on, port, x, others)), f)
         == WeightAt(kind, on, port, own[x := after], others, f)
  {
    AloneMoves(kind, on, port, own, others, x, after);
    NetOne(AloneOf(port, x), after - own[x], f);
  }
}
