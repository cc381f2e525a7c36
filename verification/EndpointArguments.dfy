/** Named endpoint arguments: what is accepted and what each name means does not depend on the
    order in which they are written. */
module EndpointArguments {
  import opened Options
  import opened BigEndian

  type text = seq<byte>

  datatype Parameter = Literal(value: text) | Environment(name: text)

  datatype ParameterKind = StringKind | U64Kind

  datatype Presence = Required | Default(value: text) | Optional

  datatype Specification = Specification(name: text, kind: ParameterKind, presence: Presence)

  /** A value as written: a literal of some kind, a call of env, or anything else. */
  datatype Expression =
    | Quoted(value: text)
    | Number(digits: text, fitsU64: bool)
    | Env(name: text)
    | Unsupported(code: nat)

  datatype Argument = Positional(bare: Expression) | Named(name: text, arrow: bool, expression: Option<Expression>)

  type Arguments = seq<(text, Parameter)>

  function ParseParameter(kind: ParameterKind, e: Expression): Option<Parameter>
  {
    match e
    case Quoted(value) => if kind.StringKind? then Some(Literal(value)) else None
    case Number(digits, fits) => if kind.U64Kind? && fits then Some(Literal(digits)) else None
    case Env(name) => if name == [] then None else Some(Environment(name))
    case Unsupported(_) => None
  }

  function Get(values: Arguments, name: text): Option<Parameter>
  {
    if values == [] then None else if values[0].0 == name then Some(values[0].1) else Get(values[1..], name)
  }

  function Find(expected: seq<Specification>, name: text): Option<Specification>
  {
    if expected == [] then None else if expected[0].name == name then Some(expected[0]) else Find(expected[1..], name)
  }

  predicate UniqueSpecifications(expected: seq<Specification>)
  {
    forall j, k :: 0 <= j < k < |expected| ==> expected[j].name != expected[k].name
  }

  /** One argument on its own is acceptable, and what it stands for. */
  function Meaning(a: Argument, expected: seq<Specification>): Option<(text, Parameter)>
  {
    if a.Positional? || !a.arrow || a.expression.None? || Find(expected, a.name).None? then None
    else
      var value := ParseParameter(Find(expected, a.name).value.kind, a.expression.value);
      if value.Some? then Some((a.name, value.value)) else None
  }

  // ---- What is accepted, without reference to order -----------------------

  ghost predicate AllMean(m: multiset<Argument>, expected: seq<Specification>)
  {
    forall a :: a in m ==> Meaning(a, expected).Some?
  }

  ghost predicate NoneTwice(m: multiset<Argument>)
  {
    && (forall a :: a in m ==> m[a] == 1)
    && (forall a, b :: a in m && b in m && a.Named? && b.Named? && a.name == b.name ==> a == b)
  }

  ghost predicate Supplies(m: multiset<Argument>, name: text)
  {
    exists a :: a in m && a.Named? && a.name == name
  }

  /** Accepted argument lists. */
  ghost predicate Accepted(m: multiset<Argument>, expected: seq<Specification>)
  {
    && AllMean(m, expected) && NoneTwice(m)
    && forall s :: s in expected && s.presence.Required? ==> Supplies(m, s.name)
  }

  /** `values` gives every name the value written for it, or else its default. */
  ghost predicate Gives(values: Arguments, m: multiset<Argument>, expected: seq<Specification>)
  {
    forall name ::
      && (forall a :: a in m && a.Named? && a.name == name && Meaning(a, expected).Some? ==>
              Get(values, name) == Some(Meaning(a, expected).value.1))
      && (!Supplies(m, name) ==> Get(values, name) == DefaultOf(expected, name))
  }

  function DefaultOf(expected: seq<Specification>, name: text): Option<Parameter>
  {
    match Find(expected, name)
    case Some(s) => if s.presence.Default? then Some(Literal(s.presence.value)) else None
    case None => None
  }

  // ---- The same, argument by argument ---------------------------------------

  /** What an expression may stand for under a parameter of some kind: a quoted text as a text, a
      number that fits 64 bits as a number, and a named environment variable as either. */
  predicate StandsFor(kind: ParameterKind, e: Expression, p: Parameter)
  {
    || (e.Quoted? && kind.StringKind? && p == Literal(e.value))
    || (e.Number? && e.fitsU64 && kind.U64Kind? && p == Literal(e.digits))
    || (e.Env? && e.name != [] && p == Environment(e.name))
  }

  /** The argument is written `name => expression`, for a specified name, and stands for `p`. */
  predicate WrittenFor(a: Argument, s: Specification, p: Parameter)
  {
    a.Named? && a.arrow && a.name == s.name && a.expression.Some? && StandsFor(s.kind, a.expression.value, p)
  }

  ghost predicate Understood(a: Argument, expected: seq<Specification>)
  {
    exists s, p :: s in expected && WrittenFor(a, s, p)
  }

  /** The first value listed for the name is `p`. */
  predicate Lists(values: Arguments, name: text, p: Parameter)
  {
    exists j :: 0 <= j < |values| && values[j] == (name, p) && forall k :: 0 <= k < j ==> values[k].0 != name
  }

  predicate ListsNone(values: Arguments, name: text)
  {
    forall j :: 0 <= j < |values| ==> values[j].0 != name
  }

  /** What was written for a name is listed; a name that was not written has its default, if it has one. */
  ghost predicate Reads(values: Arguments, m: multiset<Argument>, expected: seq<Specification>)
  {
    && (forall a, s, p :: a in m && s in expected && WrittenFor(a, s, p) ==> Lists(values, s.name, p))
    && (forall s :: s in expected && !Supplies(m, s.name) ==>
            if s.presence.Default? then Lists(values, s.name, Literal(s.presence.value))
            else ListsNone(values, s.name))
    && (forall name :: !Supplies(m, name) && (forall s :: s in expected ==> s.name != name) ==>
            ListsNone(values, name))
  }

  lemma {:induction false} GetIff(values: Arguments, name: text, p: Parameter)
    ensures Get(values, name) == Some(p) <==> Lists(values, name, p)
    ensures Get(values, name) == None <==> ListsNone(values, name)
  {
    if values != [] {
      GetIff(values[1..], name, p);
      if values[0].0 == name {
        assert values[0] == (name, values[0].1);
      } else {
        ListsRest(values, name, p);
      }
    }
  }

  lemma ListsRest(values: Arguments, name: text, p: Parameter)
    requires values != [] && values[0].0 != name
    ensures Lists(values, name, p) <==> Lists(values[1..], name, p)
    ensures ListsNone(values, name) <==> ListsNone(values[1..], name)
  {
    var rest := values[1..];
    if Lists(rest, name, p) {
      var j :| 0 <= j < |rest| && rest[j] == (name, p) && forall k :: 0 <= k < j ==> rest[k].0 != name;
      assert values[j + 1] == (name, p);
      forall k | 0 <= k < j + 1
        ensures values[k].0 != name
      {
        assert k > 0 ==> values[k] == rest[k - 1];
      }
    }
    if Lists(values, name, p) {
      var j :| 0 <= j < |values| && values[j] == (name, p) && forall k :: 0 <= k < j ==> values[k].0 != name;
      assert rest[j - 1] == (name, p);
    }
    if ListsNone(rest, name) {
      forall j | 0 <= j < |values|
        ensures values[j].0 != name
      {
        assert j > 0 ==> values[j] == rest[j - 1];
      }
    }
  }

  /** With unique names an argument means exactly what is written for its specification. */
  lemma MeaningIff(a: Argument, expected: seq<Specification>, s: Specification, p: Parameter)
    requires UniqueSpecifications(expected) && s in expected
    ensures a.Named? && a.name == s.name ==>
      (Meaning(a, expected) == Some((s.name, p)) <==> WrittenFor(a, s, p))
  {
    var k :| 0 <= k < |expected| && expected[k] == s;
    FindFirst(expected, k);
  }

  lemma UnderstoodIff(a: Argument, expected: seq<Specification>)
    requires UniqueSpecifications(expected)
    ensures Meaning(a, expected).Some? <==> Understood(a, expected)
  {
    if Meaning(a, expected).Some? {
      FindMember(expected, a.name);
      var s, p := Find(expected, a.name).value, Meaning(a, expected).value.1;
      MeaningIff(a, expected, s, p);
      assert s in expected && WrittenFor(a, s, p);
    }
    if Understood(a, expected) {
      var s, p :| s in expected && WrittenFor(a, s, p);
      MeaningIff(a, expected, s, p);
    }
  }

  /** What is given is what is written, in literal terms. */
  lemma GivesReads(values: Arguments, m: multiset<Argument>, expected: seq<Specification>)
    requires UniqueSpecifications(expected) && Gives(values, m, expected)
    ensures Reads(values, m, expected)
  {
    forall a, s, p | a in m && s in expected && WrittenFor(a, s, p)
      ensures Lists(values, s.name, p)
    {
      MeaningIff(a, expected, s, p);
      GetIff(values, s.name, p);
    }
    forall s | s in expected && !Supplies(m, s.name)
      ensures if s.presence.Default? then Lists(values, s.name, Literal(s.presence.value))
              else ListsNone(values, s.name)
    {
      var k :| 0 <= k < |expected| && expected[k] == s;
      FindFirst(expected, k);
      GetIff(values, s.name, if s.presence.Default? then Literal(s.presence.value) else Literal([]));
    }
    forall name | !Supplies(m, name) && forall s :: s in expected ==> s.name != name
      ensures ListsNone(values, name)
    {
      FindMember(expected, name);
      GetIff(values, name, Literal([]));
    }
  }

  // ---- The parser ---------------------------------------------------------

  lemma {:induction false} GetAppend(values: Arguments, key: text, value: Parameter, name: text)
    ensures Get(values + [(key, value)], name)
        == if Get(values, name).Some? then Get(values, name) else if key == name then Some(value) else None
  {
    if values == [] {
      assert values + [(key, value)] == [(key, value)];
      assert Get([], name) == None;
    } else {
      assert (values + [(key, value)])[1..] == values[1..] + [(key, value)];
      GetAppend(values[1..], key, value, name);
    }
  }

  lemma {:induction false} FindFirst(expected: seq<Specification>, k: nat)
    requires UniqueSpecifications(expected) && k < |expected|
    ensures Find(expected, expected[k].name) == Some(expected[k])
  {
    if k > 0 {
      assert expected[0].name != expected[k].name;
      FindFirst(expected[1..], k - 1);
    }
  }

  lemma {:induction false} FindMember(expected: seq<Specification>, name: text)
    ensures Find(expected, name).Some? ==>
      Find(expected, name).value in expected && Find(expected, name).value.name == name
    ensures Find(expected, name).None? ==> forall s :: s in expected ==> s.name != name
  {
    if expected != [] {
      FindMember(expected[1..], name);
    }
  }

  /** What has been read from the first `k` arguments. */
  ghost predicate ReadSo(values: Arguments, arguments: seq<Argument>, k: nat, expected: seq<Specification>)
    requires k <= |arguments|
  {
    && (forall j :: 0 <= j < k ==>
            && Meaning(arguments[j], expected).Some?
            && Get(values, arguments[j].name) == Some(Meaning(arguments[j], expected).value.1))
    && (forall i, j :: 0 <= i < j < k ==> arguments[i].name != arguments[j].name)
    && (forall name :: Get(values, name).Some? ==> exists j :: 0 <= j < k && arguments[j].name == name)
  }

  lemma ReadMore(values: Arguments, arguments: seq<Argument>, k: nat, expected: seq<Specification>, value: Parameter)
    requires k < |arguments| && ReadSo(values, arguments, k, expected) && arguments[k].Named?
    requires Meaning(arguments[k], expected) == Some((arguments[k].name, value)) && Get(values, arguments[k].name).None?
    ensures ReadSo(values + [(arguments[k].name, value)], arguments, k + 1, expected)
  {
    var key := arguments[k].name;
    var more := values + [(key, value)];
    forall name
      ensures Get(more, name)
          == if Get(values, name).Some? then Get(values, name) else if key == name then Some(value) else None
    {
      GetAppend(values, key, value, name);
    }
    forall name | Get(more, name).Some?
      ensures exists j :: 0 <= j < k + 1 && arguments[j].name == name
    {
      if key == name {
        assert arguments[k].name == name;
      }
    }
  }

  /** The arguments as they were read make a proper set. */
  lemma ReadAll(values: Arguments, arguments: seq<Argument>, expected: seq<Specification>)
    requires ReadSo(values, arguments, |arguments|, expected)
    ensures AllMean(multiset(arguments), expected) && NoneTwice(multiset(arguments))
    ensures forall name :: Get(values, name).Some? <==> Supplies(multiset(arguments), name)
  {
    DistinctOnce(arguments);
    forall name
      ensures Get(values, name).Some? <==> Supplies(multiset(arguments), name)
    {
      if Supplies(multiset(arguments), name) {
        var a :| a in multiset(arguments) && a.Named? && a.name == name;
        var j :| 0 <= j < |arguments| && arguments[j] == a;
      }
    }
  }

  lemma {:induction false} DistinctOnce<T>(xs: seq<T>)
    requires forall i, j :: 0 <= i < j < |xs| ==> xs[i] != xs[j]
    ensures forall x :: x in multiset(xs) ==> multiset(xs)[x] == 1
  {
    if xs != [] {
      var n := |xs| - 1;
      DistinctOnce(xs[..n]);
      assert xs == xs[..n] + [xs[n]];
      assert xs[n] !in xs[..n];
    }
  }

  /** An argument that cannot be read, or a name read twice, spoils the whole list. */
  lemma Spoiled(arguments: seq<Argument>, k: nat, expected: seq<Specification>)
    requires k < |arguments|
    requires Meaning(arguments[k], expected).None? || (arguments[k].Named? &&
      exists j :: 0 <= j < k && arguments[j].Named? && arguments[j].name == arguments[k].name)
    ensures !(AllMean(multiset(arguments), expected) && NoneTwice(multiset(arguments)))
  {
    assert arguments[k] in multiset(arguments);
    if Meaning(arguments[k], expected).Some? {
      var j :| 0 <= j < k && arguments[j].Named? && arguments[j].name == arguments[k].name;
      assert arguments[j] in multiset(arguments);
      if arguments[j] == arguments[k] {
        assert arguments == arguments[..k] + arguments[k..];
        assert arguments[j] in multiset(arguments[..k]) && arguments[k] in multiset(arguments[k..]);
      }
    }
  }

  /** Reads the arguments in order, then fills in the defaults. */
  method ParseArguments(arguments: seq<Argument>, expected: seq<Specification>) returns (r: Option<Arguments>)
    requires UniqueSpecifications(expected)
    ensures r.Some? <==> Accepted(multiset(arguments), expected)
    ensures r.Some? ==> Gives(r.value, multiset(arguments), expected)
    ensures r.Some? <==>
      && (forall a :: a in multiset(arguments) ==> Understood(a, expected))
      && NoneTwice(multiset(arguments))
      && forall s :: s in expected && s.presence.Required? ==> Supplies(multiset(arguments), s.name)
    ensures r.Some? ==> Reads(r.value, multiset(arguments), expected)
  {
    forall a
      ensures Meaning(a, expected).Some? <==> Understood(a, expected)
    {
      UnderstoodIff(a, expected);
    }
    r := ReadArguments(arguments, expected);
    if r.Some? {
      GivesReads(r.value, multiset(arguments), expected);
    }
  }

  /** The reading itself: the arguments, then the defaults. */
  method ReadArguments(arguments: seq<Argument>, expected: seq<Specification>) returns (r: Option<Arguments>)
    requires UniqueSpecifications(expected)
    ensures r.Some? <==> Accepted(multiset(arguments), expected)
    ensures r.Some? ==> Gives(r.value, multiset(arguments), expected)
  {
    var values: Arguments := [];
    for k := 0 to |arguments|
      invariant ReadSo(values, arguments, k, expected)
    {
      var a := arguments[k];
      var meaning := Meaning(a, expected);
      if meaning.None? || Get(values, a.name).Some? {
        Spoiled(arguments, k, expected);
        return None;
      }
      ReadMore(values, arguments, k, expected, meaning.value.1);
      values := values + [meaning.value];
    }
    ReadAll(values, arguments, expected);
    r := FillDefaults(values, multiset(arguments), expected);
  }

  /** Adds the defaults of the names that were not given; fails for a required one. */
  method FillDefaults(given: Arguments, ghost m: multiset<Argument>, expected: seq<Specification>)
    returns (r: Option<Arguments>)
    requires UniqueSpecifications(expected) && AllMean(m, expected) && NoneTwice(m)
    requires forall name :: Get(given, name).Some? <==> Supplies(m, name)
    requires forall a :: a in m ==> Get(given, a.name) == Some(Meaning(a, expected).value.1)
    ensures r.Some? <==> Accepted(m, expected)
    ensures r.Some? ==> Gives(r.value, m, expected)
  {
    var values := given;
    for k := 0 to |expected|
      invariant Filled(values, given, expected, k)
      invariant forall j :: 0 <= j < k && expected[j].presence.Required? ==> Supplies(m, expected[j].name)
    {
      var s := expected[k];
      FilledStep(values, given, expected, k);
      if Get(values, s.name).None? {
        if s.presence.Required? {
          return None;
        }
        if s.presence.Default? {
          values := values + [(s.name, Literal(s.presence.value))];
        }
      }
    }
    forall name
      ensures !Supplies(m, name) ==> Get(values, name) == DefaultOf(expected, name)
    {
      FindMember(expected, name);
    }
    r := Some(values);
  }

  /** The given values, and the defaults of the first `k` specifications. */
  ghost predicate Filled(values: Arguments, given: Arguments, expected: seq<Specification>, k: nat)
    requires k <= |expected|
  {
    forall name :: Get(values, name) ==
      if Get(given, name).Some? then Get(given, name)
      else if exists j :: 0 <= j < k && expected[j].name == name then DefaultOf(expected, name) else None
  }

  lemma FilledStep(values: Arguments, given: Arguments, expected: seq<Specification>, k: nat)
    requires UniqueSpecifications(expected) && k < |expected| && Filled(values, given, expected, k)
    ensures Get(values, expected[k].name) == Get(given, expected[k].name)
    ensures Get(values, expected[k].name).Some? || !expected[k].presence.Default? ==>
      Filled(values, given, expected, k + 1)
    ensures Get(values, expected[k].name).None? && expected[k].presence.Default? ==>
      Filled(values + [(expected[k].name, Literal(expected[k].presence.value))], given, expected, k + 1)
  {
    var s := expected[k];
    FindFirst(expected, k);
    if s.presence.Default? {
      forall name
        ensures Get(values + [(s.name, Literal(s.presence.value))], name)
            == if Get(values, name).Some? then Get(values, name)
               else if s.name == name then Some(Literal(s.presence.value))
               else None
      {
        GetAppend(values, s.name, Literal(s.presence.value), name);
      }
    }
  }

  /** Two readings of the same arguments, in whatever order, agree on every name. */
  lemma OrderIrrelevant(first: Arguments, second: Arguments, m: multiset<Argument>, expected: seq<Specification>,
                        name: text)
    requires Accepted(m, expected) && Gives(first, m, expected) && Gives(second, m, expected)
    ensures Get(first, name) == Get(second, name)
  {
    if Supplies(m, name) {
      var a :| a in m && a.Named? && a.name == name;
      assert Meaning(a, expected).Some?;
    }
  }
}
