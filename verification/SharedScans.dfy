/** Sharing one physical scan between all occurrences of a source: the union of the columns
    they need, and picking each occurrence's columns out of it. */
module SharedScans {
  import opened Bags
  import opened Options
  import opened Sequences
  import opened Expressions
  import opened Relational
  import opened Plans
  import opened Dataflow
  import opened LoweringSteps
  import opened JoinSteps

  datatype SqlError = UnsupportedPlan | Invalid | Rejected

  datatype Result<+T> = Ok(value: T) | Err(error: SqlError)

  /** Insertion into an ordered set. */
  function Insert(xs: seq<nat>, x: nat): (r: seq<nat>)
    requires Increasing(xs)
    ensures Increasing(r) && forall y :: y in r <==> y in xs || y == x
  {
    if xs == [] then [x]
    else
      var last := xs[|xs| - 1];
      var front := xs[..|xs| - 1];
      assert xs == front + [last];
      if last < x then xs + [x] else if last == x then xs
      else
        var inserted := Insert(front, x);
        assert forall k :: 0 <= k < |inserted| ==> inserted[k] in inserted;
        assert forall y :: y in inserted ==> y < last;
        inserted + [last]
  }

  function InsertAll(xs: seq<nat>, ys: seq<nat>): (r: seq<nat>)
    requires Increasing(xs)
    ensures Increasing(r) && forall y :: y in r <==> y in xs || y in ys
    decreases |ys|
  {
    if ys == [] then xs else assert ys == [ys[0]] + ys[1..]; InsertAll(Insert(xs, ys[0]), ys[1..])
  }

  function Inputs(p: Plan): (r: seq<Plan>)
    ensures forall k :: 0 <= k < |r| ==> r[k] < p
  {
    match p
    case TableScan(_, _, _, _) => []
    case Join(left, right, _, _, _, _, _, _, _) => [left, right]
    case AsOfJoin(left, right, _, _, _, _, _, _) => [left, right]
    case Union(inputs, _) => inputs
    case Unsupported(_) => []
    case _ => [p.input]
  }

  /** The plan is itself a scan of the source. */
  ghost predicate Scans(p: Plan, s: nat)
  {
    p.TableScan? && p.source == s
  }

  ghost predicate ScansColumn(p: Plan, s: nat, c: nat)
  {
    p.TableScan? && p.source == s && c in ScanPositions(p.projection, |p.schema.fields|)
  }

  /** The source occurs in the plan. */
  ghost predicate Uses(p: Plan, s: nat)
    decreases p
  {
    Scans(p, s) || exists k :: 0 <= k < |Inputs(p)| && Uses(Inputs(p)[k], s)
  }

  /** Some occurrence of the source needs column `c`. */
  ghost predicate Needs(p: Plan, s: nat, c: nat)
    decreases p
  {
    ScansColumn(p, s, c)
    || exists k :: 0 <= k < |Inputs(p)| && Needs(Inputs(p)[k], s, c)
  }

  /** The positions of a scan, if its projected schema agrees with the source. */
  function ScanProjection(projection: Option<seq<nat>>, schema: LogicalSchema, source: Schema): Option<seq<nat>>
  {
    var positions := ScanPositions(projection, |source.fields|);
    if |positions| == |schema.fields|
       && forall k :: 0 <= k < |positions| ==>
            positions[k] < |source.fields| && schema.fields[k].field == source.fields[positions[k]]
    then Some(positions) else None
  }

  lemma ScanProjectionTotal(projection: Option<seq<nat>>, schema: LogicalSchema, source: Schema)
    requires ScanOf(projection, schema, source)
    ensures ScanProjection(projection, schema, source) == Some(ScanPositions(projection, |schema.fields|))
  {
  }

  ghost predicate OrderedUnions(unions: seq<Option<seq<nat>>>)
  {
    forall s :: 0 <= s < |unions| && unions[s].Some? ==> Increasing(unions[s].value)
  }

  /** `after` is `before` with the columns that `p` itself and its first `n` inputs need of source `s`. */
  ghost predicate Gathered(before: Option<seq<nat>>, p: Plan, n: nat, s: nat, after: Option<seq<nat>>)
    requires n <= |Inputs(p)|
  {
    && (after.Some? <==> before.Some? || Scans(p, s) || exists k :: 0 <= k < n && Uses(Inputs(p)[k], s))
    && (after.Some? ==> Increasing(after.value))
    && (after.Some? ==> forall c :: c in after.value <==>
          || (before.Some? && c in before.value)
          || ScansColumn(p, s, c)
          || exists k :: 0 <= k < n && Needs(Inputs(p)[k], s, c))
  }

  lemma GatheredNext(before: Option<seq<nat>>, p: Plan, n: nat, s: nat, middle: Option<seq<nat>>,
                     after: Option<seq<nat>>)
    requires n < |Inputs(p)| && Gathered(before, p, n, s, middle)
    requires Gathered(middle, Inputs(p)[n], |Inputs(Inputs(p)[n])|, s, after)
    ensures Gathered(before, p, n + 1, s, after)
  {
    var q := Inputs(p)[n];
    assert Uses(q, s) <==> Scans(q, s) || exists k :: 0 <= k < |Inputs(q)| && Uses(Inputs(q)[k], s);
    assert (exists k :: 0 <= k < n + 1 && Uses(Inputs(p)[k], s))
      <==> (exists k :: 0 <= k < n && Uses(Inputs(p)[k], s)) || Uses(q, s);
    if after.Some? {
      forall c
        ensures c in after.value <==>
          || (before.Some? && c in before.value)
          || ScansColumn(p, s, c)
          || exists k :: 0 <= k < n + 1 && Needs(Inputs(p)[k], s, c)
      {
        NeedsNext(p, n, s, c);
        if middle.None? {
          NeedsUses(p, n, s, c);
        }
      }
    }
  }

  lemma NeedsNext(p: Plan, n: nat, s: nat, c: nat)
    requires n < |Inputs(p)|
    ensures (exists k :: 0 <= k < n + 1 && Needs(Inputs(p)[k], s, c))
        <==> (exists k :: 0 <= k < n && Needs(Inputs(p)[k], s, c)) || Needs(Inputs(p)[n], s, c)
    ensures var q := Inputs(p)[n];
      Needs(q, s, c) <==> ScansColumn(q, s, c) || exists k :: 0 <= k < |Inputs(q)| && Needs(Inputs(q)[k], s, c)
  {
  }

  /** Only occurring sources need columns. */
  lemma {:induction false} NeedsImpliesUses(p: Plan, s: nat, c: nat)
    requires Needs(p, s, c)
    ensures Uses(p, s)
    decreases p
  {
    if !Scans(p, s) {
      var k :| 0 <= k < |Inputs(p)| && Needs(Inputs(p)[k], s, c);
      NeedsImpliesUses(Inputs(p)[k], s, c);
    }
  }

  lemma NeedsUses(p: Plan, n: nat, s: nat, c: nat)
    requires n <= |Inputs(p)|
    ensures (exists k :: 0 <= k < n && Needs(Inputs(p)[k], s, c)) ==> exists k :: 0 <= k < n && Uses(Inputs(p)[k], s)
  {
    if k :| 0 <= k < n && Needs(Inputs(p)[k], s, c) {
      NeedsImpliesUses(Inputs(p)[k], s, c);
    }
  }

  lemma InputsWellFormed(p: Plan, sources: seq<Schema>)
    requires WellFormed(p, sources)
    ensures forall k :: 0 <= k < |Inputs(p)| ==> WellFormed(Inputs(p)[k], sources)
  {
  }

  /** Adds the columns every occurrence in `p` needs to the per-source unions. */
  method Collect(p: Plan, sources: seq<Schema>, unions: array<Option<seq<nat>>>) returns (ok: bool)
    requires WellFormed(p, sources) && unions.Length == |sources| && OrderedUnions(unions[..])
    modifies unions
    ensures ok && OrderedUnions(unions[..])
    ensures forall s :: 0 <= s < unions.Length ==> Gathered(old(unions[s]), p, |Inputs(p)|, s, unions[s])
    decreases p, 1
  {
    if p.TableScan? {
      ok := CollectScan(p, sources, unions);
    } else {
      ok := CollectInputs(p, sources, unions);
    }
  }

  method CollectScan(p: Plan, sources: seq<Schema>, unions: array<Option<seq<nat>>>) returns (ok: bool)
    requires p.TableScan? && WellFormed(p, sources) && unions.Length == |sources| && OrderedUnions(unions[..])
    modifies unions
    ensures ok && OrderedUnions(unions[..])
    ensures forall s :: 0 <= s < unions.Length ==> Gathered(old(unions[s]), p, 0, s, unions[s])
    decreases p, 0
  {
    ScanProjectionTotal(p.projection, p.schema, sources[p.source]);
    var positions := ScanProjection(p.projection, p.schema, sources[p.source]);
    if positions.None? || p.source >= unions.Length {
      return false;
    }
    var before := if unions[p.source].Some? then unions[p.source].value else [];
    unions[p.source] := Some(InsertAll(before, positions.value));
    ok := true;
  }

  method CollectInputs(p: Plan, sources: seq<Schema>, unions: array<Option<seq<nat>>>) returns (ok: bool)
    requires !p.TableScan? && WellFormed(p, sources) && unions.Length == |sources| && OrderedUnions(unions[..])
    modifies unions
    ensures ok && OrderedUnions(unions[..])
    ensures forall s :: 0 <= s < unions.Length ==> Gathered(old(unions[s]), p, |Inputs(p)|, s, unions[s])
    decreases p, 0
  {
    InputsWellFormed(p, sources);
    ok := true;
    for n := 0 to |Inputs(p)|
      invariant ok && OrderedUnions(unions[..])
      invariant forall s :: 0 <= s < unions.Length ==> Gathered(old(unions[s]), p, n, s, unions[s])
    {
      ghost var middle := unions[..];
      ok := Collect(Inputs(p)[n], sources, unions);
      if !ok {
        return;
      }
      forall s | 0 <= s < unions.Length
        ensures Gathered(old(unions[s]), p, n + 1, s, unions[s])
      {
        GatheredNext(old(unions[s]), p, n, s, middle[s], unions[s]);
      }
    }
  }

  /** `columns` lists, in order, exactly the columns some occurrence of `s` needs. */
  ghost predicate UnionOf(p: Plan, s: nat, columns: seq<nat>)
  {
    Increasing(columns) && Uses(p, s) && forall c :: c in columns <==> Needs(p, s, c)
  }

  lemma GatheredAll(p: Plan, s: nat, after: Option<seq<nat>>)
    requires Gathered(None, p, |Inputs(p)|, s, after)
    ensures after.None? ==> !Uses(p, s)
    ensures after.Some? ==> UnionOf(p, s, after.value)
  {
  }

  /** The union of needed columns per source; every declared source must occur. */
  method ScanProjections(p: Plan, sources: seq<Schema>) returns (r: Result<seq<seq<nat>>>)
    requires WellFormed(p, sources)
    ensures r.Ok? ==> |r.value| == |sources| && forall s :: 0 <= s < |sources| ==> UnionOf(p, s, r.value[s])
    ensures r.Err? ==> exists s :: 0 <= s < |sources| && !Uses(p, s)
  {
    var unions := new Option<seq<nat>>[|sources|](_ => None);
    label Empty:
    var ok := Collect(p, sources, unions);
    var gathered := unions[..];
    forall s | 0 <= s < |sources|
      ensures Gathered(None, p, |Inputs(p)|, s, gathered[s])
    {
      assert old@Empty(unions[s]) == None;
    }
    var projections: seq<seq<nat>> := [];
    for s := 0 to |sources|
      invariant |projections| == s && forall t :: 0 <= t < s ==> UnionOf(p, t, projections[t])
    {
      GatheredAll(p, s, gathered[s]);
      if gathered[s].None? {
        return Err(Invalid);
      }
      projections := projections + [gathered[s].value];
    }
    r := Ok(projections);
  }

  /** Binary search in an ordered slice. */
  method BinarySearch(xs: seq<nat>, x: nat) returns (r: Option<nat>)
    requires Increasing(xs)
    ensures r.Some? ==> r.value < |xs| && xs[r.value] == x
    ensures r.None? ==> x !in xs
  {
    var low, high := 0, |xs|;
    while low < high
      invariant 0 <= low <= high <= |xs|
      invariant forall k :: 0 <= k < low ==> xs[k] < x
      invariant forall k :: high <= k < |xs| ==> x < xs[k]
    {
      var middle := (low + high) / 2;
      if xs[middle] < x {
        low := middle + 1;
      } else if x < xs[middle] {
        high := middle;
      } else {
        return Some(middle);
      }
    }
    r := None;
  }

  /** Where each column of an occurrence sits in the shared projection. */
  method Locate(occurrence: seq<nat>, shared: seq<nat>) returns (r: Option<seq<nat>>)
    requires Increasing(shared)
    ensures r.Some? <==> forall k :: 0 <= k < |occurrence| ==> occurrence[k] in shared
    ensures r.Some? ==>
      |r.value| == |occurrence| && forall k :: 0 <= k < |occurrence| ==>
          r.value[k] < |shared| && shared[r.value[k]] == occurrence[k]
  {
    var positions: seq<nat> := [];
    for n := 0 to |occurrence|
      invariant |positions| == n
      invariant forall k :: 0 <= k < n ==> positions[k] < |shared| && shared[positions[k]] == occurrence[k]
    {
      var found := BinarySearch(shared, occurrence[n]);
      if found.None? {
        return None;
      }
      positions := positions + [found.value];
    }
    r := Some(positions);
  }

  /** Selecting from a selection. */
  lemma SelectCompose(shared: seq<nat>, positions: seq<nat>, occurrence: seq<nat>, m: Bag)
    requires |positions| == |occurrence|
    requires forall k :: 0 <= k < |occurrence| ==> positions[k] < |shared| && shared[positions[k]] == occurrence[k]
    ensures Map(Select(positions), Map(Select(shared), m)) == Map(Select(occurrence), m)
  {
    forall r | r in m
      ensures When(Always(), Select(positions))(Select(shared)(r)) == multiset{Select(occurrence)(r)}
    {
      assert Select(positions)(Select(shared)(r)) == Select(occurrence)(r);
    }
    FlatMapWhen(When(Always(), Select(positions)), Always(), Select(shared), Select(occurrence), m);
  }
}
