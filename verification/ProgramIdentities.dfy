/** The bytes whose hash is a program's identity: they determine the query, every scan and the
    sink, up to what does not belong to identity. */
module ProgramIdentities {
  import opened Options
  import opened Sequences
  import opened BigEndian
  import opened EndpointArguments

  const WORD: int := 0x1_0000_0000_0000_0000
  const DOT: byte := 46

  /** "connection", "table", "publication", "bootstrap_spool_bytes", "start" and "path" */
  const CONNECTION: text := [99, 111, 110, 110, 101, 99, 116, 105, 111, 110]
  const TABLE: text := [116, 97, 98, 108, 101]
  const PUBLICATION: text := [112, 117, 98, 108, 105, 99, 97, 116, 105, 111, 110]
  const SPOOL: text := [98, 111, 111, 116, 115, 116, 114, 97, 112, 95, 115, 112, 111, 111, 108, 95, 98, 121, 116, 101,
                        115]
  const START: text := [115, 116, 97, 114, 116]
  const PATH: text := [112, 97, 116, 104]

  /** What is taken from the environment and from libraries: variables, decimal parsing, database URLs. */
  datatype World = World(env: text -> Option<text>, number: text -> Option<nat>, url: text -> Option<Connection>)

  datatype Connection = Connection(host: text, port: nat, database: text, user: text, password: text)

  function Resolve(w: World, p: Parameter): Option<text>
  {
    match p
    case Literal(value) => Some(value)
    case Environment(name) => w.env(name)
  }

  function ResolveU64(w: World, p: Parameter): Option<nat>
  {
    var value := Resolve(w, p);
    if value.None? then None
    else
      var n := w.number(value.value);
      if n.Some? && n.value < WORD then n else None
  }

  function ResolveConnection(w: World, p: Parameter): Option<Connection>
  {
    var value := Resolve(w, p);
    if value.None? then None else w.url(value.value)
  }

  // ---- Table names --------------------------------------------------------

  /** The part before the first dot, and what follows it if there is one. */
  function SplitDot(value: text): (text, Option<text>)
  {
    if value == [] then ([], None)
    else if value[0] == DOT then ([], Some(value[1..]))
    else
      var (head, rest) := SplitDot(value[1..]);
      ([value[0]] + head, rest)
  }

  function QualifiedTable(value: text): Option<(text, text)>
  {
    var (namespace, rest) := SplitDot(value);
    if namespace == [] || rest.None? then None
    else
      var (table, more) := SplitDot(rest.value);
      if table == [] || more.Some? then None else Some((namespace, table))
  }

  lemma {:induction false} SplitDotIs(value: text)
    ensures var (head, rest) := SplitDot(value);
      DOT !in head && value == if rest.None? then head else head + [DOT] + rest.value
  {
    if value != [] && value[0] != DOT {
      SplitDotIs(value[1..]);
      assert value == [value[0]] + value[1..];
    } else if value != [] {
      assert value == [value[0]] + value[1..];
    }
  }

  lemma {:induction false} SplitDotOf(head: text, rest: text)
    requires DOT !in head
    ensures SplitDot(head) == (head, None) && SplitDot(head + [DOT] + rest) == (head, Some(rest))
  {
    if head == [] {
      assert ([] + [DOT] + rest)[1..] == rest;
    } else {
      assert (head + [DOT] + rest)[1..] == head[1..] + [DOT] + rest;
      SplitDotOf(head[1..], rest);
      assert head == [head[0]] + head[1..];
    }
  }

  /** A qualified table is exactly two nonempty components around one dot. */
  lemma QualifiedIff(value: text, namespace: text, table: text)
    ensures QualifiedTable(value) == Some((namespace, table)) <==>
      namespace != [] && table != [] && DOT !in namespace && DOT !in table && value == namespace + [DOT] + table
  {
    SplitDotIs(value);
    if SplitDot(value).1.Some? {
      SplitDotIs(SplitDot(value).1.value);
    }
    if namespace != [] && table != [] && DOT !in namespace && DOT !in table && value == namespace + [DOT] + table {
      SplitDotOf(namespace, table);
      SplitDotOf(table, []);
    }
  }

  // ---- Resolved endpoints -------------------------------------------------

  datatype ScanEndpoint =
    | Sequence(arguments: Arguments)
    | PostgresCdc(arguments: Arguments)
    | MySqlCdc(arguments: Arguments)

  datatype SinkEndpoint =
    | ClickHouse(arguments: Arguments)
    | Doris(arguments: Arguments)
    | Postgres(arguments: Arguments)
    | Sqlite(arguments: Arguments)
    | Discard

  datatype ResolvedScan =
    | SequenceScan(start: nat)
    | PostgresScan(connection: Connection, schema: text, table: text, publication: text, spool: nat)
    | MySqlScan(connection: Connection, table: text, spool: nat)

  datatype ResolvedSink =
    | ClickHouseSink(connection: Connection, namespace: text, table: text)
    | DorisSink(connection: Connection, namespace: text, table: text)
    | PostgresSink(connection: Connection, namespace: text, table: text)
    | SqliteSink(path: text, table: text)
    | DiscardSink

  predicate CdcIdentifier(value: text)
  {
    && 0 < |value| <= 63
    && forall k :: 0 <= k < |value| ==> 97 <= value[k] <= 122 || 48 <= value[k] <= 57 || value[k] == 95
  }

  function TableOf(w: World, arguments: Arguments): Option<(text, text)>
  {
    var p := Get(arguments, TABLE);
    if p.None? then None
    else
      var value := Resolve(w, p.value);
      if value.None? then None else QualifiedTable(value.value)
  }

  function ConnectionOf(w: World, arguments: Arguments): Option<Connection>
  {
    var p := Get(arguments, CONNECTION);
    if p.None? then None else ResolveConnection(w, p.value)
  }

  function TextOf(w: World, arguments: Arguments, name: text): Option<text>
  {
    var p := Get(arguments, name);
    if p.None? then None else Resolve(w, p.value)
  }

  function SpoolOf(w: World, arguments: Arguments): Option<nat>
  {
    var p := Get(arguments, SPOOL);
    if p.None? then None
    else
      var n := ResolveU64(w, p.value);
      if n.Some? && n.value != 0 then n else None
  }

  function ResolveScan(w: World, e: ScanEndpoint): Option<ResolvedScan>
  {
    match e
    case Sequence(arguments) =>
      var p := Get(arguments, START);
      if p.None? || ResolveU64(w, p.value).None? then None else Some(SequenceScan(ResolveU64(w, p.value).value))
    case PostgresCdc(arguments) =>
      var connection, table, publication, spool :=
        ConnectionOf(w, arguments), TableOf(w, arguments),
        TextOf(w, arguments, PUBLICATION), SpoolOf(w, arguments);
      if connection.None? || table.None? || publication.None? || spool.None? then None
      else if !CdcIdentifier(table.value.0) || !CdcIdentifier(table.value.1) || !CdcIdentifier(publication.value)
        then None
      else Some(PostgresScan(connection.value, table.value.0, table.value.1, publication.value, spool.value))
    case MySqlCdc(arguments) =>
      var connection, table, spool := ConnectionOf(w, arguments), TableOf(w, arguments), SpoolOf(w, arguments);
      if connection.None? || table.None? || spool.None? then None
      else if connection.value.database != table.value.0
        || !CdcIdentifier(table.value.0) || !CdcIdentifier(table.value.1)
        then None
      else Some(MySqlScan(connection.value, table.value.1, spool.value))
  }

  function ResolveSink(w: World, e: SinkEndpoint): Option<ResolvedSink>
  {
    match e
    case ClickHouse(arguments) =>
      var connection, table := ConnectionOf(w, arguments), TableOf(w, arguments);
      if connection.None? || table.None? || connection.value.database != table.value.0 then None
      else Some(ClickHouseSink(connection.value, table.value.0, table.value.1))
    case Doris(arguments) =>
      var connection, table := ConnectionOf(w, arguments), TableOf(w, arguments);
      if connection.None? || table.None? || connection.value.database != table.value.0 then None
      else Some(DorisSink(connection.value, table.value.0, table.value.1))
    case Postgres(arguments) =>
      var connection, table := ConnectionOf(w, arguments), TableOf(w, arguments);
      if connection.None? || table.None? then None
      else Some(PostgresSink(connection.value, table.value.0, table.value.1))
    case Sqlite(arguments) =>
      var path, table := TextOf(w, arguments, PATH), TextOf(w, arguments, TABLE);
      if path.None? || table.None? then None else Some(SqliteSink(path.value, table.value))
    case Discard => Some(DiscardSink)
  }

  // ---- What resolves, and to what -------------------------------------------

  predicate Spells(bytes: text, name: string)
  {
    |bytes| == |name| && forall k :: 0 <= k < |bytes| ==> bytes[k] == name[k] as int
  }

  /** The names of the arguments. */
  lemma NamesSpelled()
    ensures Spells(CONNECTION, "connection") && Spells(TABLE, "table") && Spells(PUBLICATION, "publication")
    ensures Spells(SPOOL, "bootstrap_spool_bytes") && Spells(START, "start") && Spells(PATH, "path")
  {
  }

  /** The argument is written as this text, or names a variable that holds it. */
  ghost predicate Given(w: World, a: Arguments, name: text, value: text)
  {
    || Lists(a, name, Literal(value))
    || exists variable :: Lists(a, name, Environment(variable)) && w.env(variable) == Some(value)
  }

  ghost predicate GivenNumber(w: World, a: Arguments, name: text, n: nat)
  {
    n < 0x1_0000_0000_0000_0000 && exists value :: Given(w, a, name, value) && w.number(value) == Some(n)
  }

  ghost predicate GivenConnection(w: World, a: Arguments, c: Connection)
  {
    exists value :: Given(w, a, CONNECTION, value) && w.url(value) == Some(c)
  }

  /** One to 63 lower-case letters, digits and underscores. */
  predicate Identifier(value: text)
  {
    && 1 <= |value| <= 63
    && forall k :: 0 <= k < |value| ==>
         'a' as int <= value[k] <= 'z' as int || '0' as int <= value[k] <= '9' as int || value[k] == '_' as int
  }

  /** A nonempty component of a table name. */
  predicate Component(value: text)
  {
    value != [] && forall k :: 0 <= k < |value| ==> value[k] != '.' as int
  }

  ghost predicate GivenTable(w: World, a: Arguments, namespace: text, table: text)
  {
    Component(namespace) && Component(table) && Given(w, a, TABLE, namespace + ['.' as int] + table)
  }

  lemma TextIs(w: World, a: Arguments, name: text, value: text)
    ensures TextOf(w, a, name) == Some(value) <==> Given(w, a, name, value)
  {
    var p := Get(a, name);
    if p.Some? {
      GetIff(a, name, p.value);
    }
    GetIff(a, name, Literal(value));
    if exists variable :: Lists(a, name, Environment(variable)) && w.env(variable) == Some(value) {
      var variable :| Lists(a, name, Environment(variable)) && w.env(variable) == Some(value);
      GetIff(a, name, Environment(variable));
    }
  }

  lemma NumberIs(w: World, a: Arguments, name: text, n: nat)
    ensures Get(a, name).Some? && ResolveU64(w, Get(a, name).value) == Some(n) <==> GivenNumber(w, a, name, n)
  {
    if TextOf(w, a, name).Some? {
      TextIs(w, a, name, TextOf(w, a, name).value);
    }
    if GivenNumber(w, a, name, n) {
      var value :| Given(w, a, name, value) && w.number(value) == Some(n);
      TextIs(w, a, name, value);
    }
  }

  lemma ConnectionIs(w: World, a: Arguments, c: Connection)
    ensures ConnectionOf(w, a) == Some(c) <==> GivenConnection(w, a, c)
  {
    if TextOf(w, a, CONNECTION).Some? {
      TextIs(w, a, CONNECTION, TextOf(w, a, CONNECTION).value);
    }
    if GivenConnection(w, a, c) {
      var value :| Given(w, a, CONNECTION, value) && w.url(value) == Some(c);
      TextIs(w, a, CONNECTION, value);
    }
  }

  lemma ComponentIff(value: text)
    ensures Component(value) <==> value != [] && DOT !in value
  {
  }

  lemma TableIs(w: World, a: Arguments, namespace: text, table: text)
    ensures TableOf(w, a) == Some((namespace, table)) <==> GivenTable(w, a, namespace, table)
  {
    ComponentIff(namespace);
    ComponentIff(table);
    TextIs(w, a, TABLE, namespace + [DOT] + table);
    if TextOf(w, a, TABLE).Some? {
      QualifiedIff(TextOf(w, a, TABLE).value, namespace, table);
    }
  }

  /** A sequence scan resolves to the number that its start is. */
  lemma SequenceResolvesIff(w: World, a: Arguments, start: nat)
    ensures ResolveScan(w, Sequence(a)) == Some(SequenceScan(start)) <==> GivenNumber(w, a, START, start)
  {
    NumberIs(w, a, START, start);
  }

  /** A PostgreSQL scan resolves exactly when everything it needs does, with proper identifiers. */
  lemma PostgresResolvesIff(w: World, a: Arguments, c: Connection, schema: text, table: text, publication: text,
                            spool: nat)
    ensures ResolveScan(w, PostgresCdc(a)) == Some(PostgresScan(c, schema, table, publication, spool)) <==>
      && GivenConnection(w, a, c) && GivenTable(w, a, schema, table) && Given(w, a, PUBLICATION, publication)
      && Identifier(schema) && Identifier(table) && Identifier(publication)
      && GivenNumber(w, a, SPOOL, spool) && spool != 0
  {
    ConnectionIs(w, a, c);
    TableIs(w, a, schema, table);
    TextIs(w, a, PUBLICATION, publication);
    NumberIs(w, a, SPOOL, spool);
    assert CdcIdentifier(schema) <==> Identifier(schema);
    assert CdcIdentifier(table) <==> Identifier(table);
    assert CdcIdentifier(publication) <==> Identifier(publication);
  }

  /** A MySQL scan resolves exactly when its table is in the database of its connection. */
  lemma MySqlResolvesIff(w: World, a: Arguments, c: Connection, table: text, spool: nat)
    ensures ResolveScan(w, MySqlCdc(a)) == Some(MySqlScan(c, table, spool)) <==>
      && GivenConnection(w, a, c) && GivenTable(w, a, c.database, table)
      && Identifier(c.database) && Identifier(table)
      && GivenNumber(w, a, SPOOL, spool) && spool != 0
  {
    ConnectionIs(w, a, c);
    TableIs(w, a, c.database, table);
    NumberIs(w, a, SPOOL, spool);
    assert CdcIdentifier(c.database) <==> Identifier(c.database);
    assert CdcIdentifier(table) <==> Identifier(table);
  }

  /** ClickHouse and Doris sinks write to the database of their connection, PostgreSQL sinks to any namespace. */
  lemma TableSinkResolvesIff(w: World, a: Arguments, c: Connection, namespace: text, table: text)
    ensures var given := GivenConnection(w, a, c) && GivenTable(w, a, namespace, table);
      && (ResolveSink(w, ClickHouse(a)) == Some(ClickHouseSink(c, namespace, table)) <==>
          given && c.database == namespace)
      && (ResolveSink(w, Doris(a)) == Some(DorisSink(c, namespace, table)) <==> given && c.database == namespace)
      && (ResolveSink(w, Postgres(a)) == Some(PostgresSink(c, namespace, table)) <==> given)
  {
    ConnectionIs(w, a, c);
    TableIs(w, a, namespace, table);
  }

  /** A SQLite sink takes its path and table as they are given. */
  lemma SqliteResolvesIff(w: World, a: Arguments, path: text, table: text)
    ensures ResolveSink(w, Sqlite(a)) == Some(SqliteSink(path, table)) <==>
      Given(w, a, PATH, path) && Given(w, a, TABLE, table)
  {
    TextIs(w, a, PATH, path);
    TextIs(w, a, TABLE, table);
  }

  // ---- The identity stream ------------------------------------------------

  /** A length and that many bytes. */
  function Prefixed(value: text): text
  {
    Encode(|value|, 8) + value
  }

  function ScanBytes(s: ResolvedScan): text
  {
    match s
    case SequenceScan(start) => [0] + Encode(start, 8)
    case PostgresScan(connection, schema, table, publication, spool) =>
      [1] + (Prefixed(connection.database) + (Prefixed(schema)
        + (Prefixed(table) + (Prefixed(publication) + Encode(spool, 8)))))
    case MySqlScan(connection, table, spool) =>
      [2] + (Prefixed(connection.database) + (Prefixed(table) + Encode(spool, 8)))
  }

  function SinkBytes(s: ResolvedSink): text
  {
    match s
    case ClickHouseSink(connection, _, table) => [3] + (Prefixed(connection.database) + Prefixed(table))
    case DorisSink(connection, _, table) => [4] + (Prefixed(connection.database) + Prefixed(table))
    case PostgresSink(connection, namespace, table) =>
      [0] + (Prefixed(connection.database) + (Prefixed(namespace) + Prefixed(table)))
    case SqliteSink(path, table) => [1] + (Prefixed(path) + Prefixed(table))
    case DiscardSink => [2]
  }

  function ScansBytes(scans: seq<ResolvedScan>): text
  {
    if scans == [] then [] else ScanBytes(scans[0]) + ScansBytes(scans[1..])
  }

  /** The whole stream that is hashed. */
  function IdentityBytes(domain: text, query: text, scans: seq<ResolvedScan>, sink: ResolvedSink): text
  {
    Prefixed(domain) + (Prefixed(query) + (Encode(|scans|, 8) + (ScansBytes(scans) + SinkBytes(sink))))
  }

  lemma Join3(o: text, a: text, b: text, c: text)
    ensures ((o + a) + b) + c == o + (a + (b + c))
  {
    Assoc(o + a, b, c);
    Assoc(o, a, b + c);
  }

  lemma Join4(o: text, a: text, b: text, c: text, d: text)
    ensures (((o + a) + b) + c) + d == o + (a + (b + (c + d)))
  {
    Assoc((o + a) + b, c, d);
    Join3(o, a, b, c + d);
  }

  lemma Join6(o: text, a: text, b: text, c: text, d: text, e: text, f: text)
    ensures (((((o + a) + b) + c) + d) + e) + f == o + (a + (b + (c + (d + (e + f)))))
  {
    Assoc((((o + a) + b) + c) + d, e, f);
    Assoc(((o + a) + b) + c, d, e + f);
    Join4(o, a, b, c, d + (e + f));
  }

  class IdentityBuffer {
    var encoded: text

    constructor ()
      ensures encoded == []
    {
      encoded := [];
    }

    method WriteBytes(value: text)
      modifies this
      ensures encoded == old(encoded) + Prefixed(value)
    {
      Assoc(encoded, Encode(|value|, 8), value);
      encoded := encoded + Encode(|value|, 8) + value;
    }

    method WriteU64(n: nat)
      modifies this
      ensures encoded == old(encoded) + Encode(n, 8)
    {
      encoded := encoded + Encode(n, 8);
    }

    method WriteScan(s: ResolvedScan)
      modifies this
      ensures encoded == old(encoded) + ScanBytes(s)
    {
      match s {
        case SequenceScan(start) =>
          Assoc(encoded, [0], Encode(start, 8));
          encoded := encoded + [0];
          WriteU64(start);
        case PostgresScan(connection, schema, table, publication, spool) =>
          Join6(encoded, [1], Prefixed(connection.database), Prefixed(schema), Prefixed(table), Prefixed(publication),
                Encode(spool, 8));
          encoded := encoded + [1];
          WriteBytes(connection.database);
          WriteBytes(schema);
          WriteBytes(table);
          WriteBytes(publication);
          WriteU64(spool);
        case MySqlScan(connection, table, spool) =>
          Join4(encoded, [2], Prefixed(connection.database), Prefixed(table), Encode(spool, 8));
          encoded := encoded + [2];
          WriteBytes(connection.database);
          WriteBytes(table);
          WriteU64(spool);
      }
    }

    method WriteSink(s: ResolvedSink)
      modifies this
      ensures encoded == old(encoded) + SinkBytes(s)
    {
      match s {
        case ClickHouseSink(connection, _, table) =>
          Join3(encoded, [3], Prefixed(connection.database), Prefixed(table));
          encoded := encoded + [3];
          WriteBytes(connection.database);
          WriteBytes(table);
        case DorisSink(connection, _, table) =>
          Join3(encoded, [4], Prefixed(connection.database), Prefixed(table));
          encoded := encoded + [4];
          WriteBytes(connection.database);
          WriteBytes(table);
        case PostgresSink(connection, namespace, table) =>
          Join4(encoded, [0], Prefixed(connection.database), Prefixed(namespace), Prefixed(table));
          encoded := encoded + [0];
          WriteBytes(connection.database);
          WriteBytes(namespace);
          WriteBytes(table);
        case SqliteSink(path, table) =>
          Join3(encoded, [1], Prefixed(path), Prefixed(table));
          encoded := encoded + [1];
          WriteBytes(path);
          WriteBytes(table);
        case DiscardSink =>
          encoded := encoded + [2];
      }
    }
  }

  // ---- The stream, byte by byte ---------------------------------------------

  /** Between `at` and `end` stand the length of `value`, in eight bytes, and its bytes. */
  predicate TextAt(data: text, at: nat, value: text, end: nat)
  {
    at + 8 + |value| == end <= |data| && LongAt(data, at) == |value| && data[at + 8..end] == value
  }

  predicate NumberAt(data: text, at: nat, n: nat, end: nat)
  {
    at + 8 == end <= |data| && LongAt(data, at) == n
  }

  predicate TagAt(data: text, at: nat, tag: byte)
  {
    at < |data| && data[at] == tag
  }

  /** How many bytes a scan takes. */
  function ScanWidth(s: ResolvedScan): nat
  {
    match s
    case SequenceScan(_) => 1 + 8
    case PostgresScan(connection, schema, table, publication, _) =>
      1 + 8 + |connection.database| + 8 + |schema| + 8 + |table| + 8 + |publication| + 8
    case MySqlScan(connection, table, _) => 1 + 8 + |connection.database| + 8 + |table| + 8
  }

  /** Texts that stand one after the other. */
  predicate TwoAt(data: text, at: nat, a: text, b: text, end: nat)
  {
    TextAt(data, at, a, at + 8 + |a|) && TextAt(data, at + 8 + |a|, b, end)
  }

  predicate ThreeAt(data: text, at: nat, a: text, b: text, c: text, end: nat)
  {
    TwoAt(data, at, a, b, at + 16 + |a| + |b|) && TextAt(data, at + 16 + |a| + |b|, c, end)
  }

  predicate FourAt(data: text, at: nat, a: text, b: text, c: text, d: text, end: nat)
  {
    TwoAt(data, at, a, b, at + 16 + |a| + |b|) && TwoAt(data, at + 16 + |a| + |b|, c, d, end)
  }

  /** A scan stands between `at` and `end`: its tag, and after it what belongs to its identity. */
  predicate ScanStands(data: text, s: ResolvedScan, at: nat, end: nat)
  {
    match s
    case SequenceScan(start) => TagAt(data, at, 0) && NumberAt(data, at + 1, start, end)
    case PostgresScan(connection, schema, table, publication, spool) =>
      && TagAt(data, at, 1) && end >= 8
      && FourAt(data, at + 1, connection.database, schema, table, publication, end - 8)
      && NumberAt(data, end - 8, spool, end)
    case MySqlScan(connection, table, spool) =>
      && TagAt(data, at, 2) && end >= 8
      && TwoAt(data, at + 1, connection.database, table, end - 8) && NumberAt(data, end - 8, spool, end)
  }

  /** A sink stands at `at` and ends the stream. */
  predicate SinkStands(data: text, s: ResolvedSink, at: nat)
  {
    match s
    case ClickHouseSink(connection, _, table) =>
      TagAt(data, at, 3) && TwoAt(data, at + 1, connection.database, table, |data|)
    case DorisSink(connection, _, table) =>
      TagAt(data, at, 4) && TwoAt(data, at + 1, connection.database, table, |data|)
    case PostgresSink(connection, namespace, table) =>
      TagAt(data, at, 0) && ThreeAt(data, at + 1, connection.database, namespace, table, |data|)
    case SqliteSink(path, table) => TagAt(data, at, 1) && TwoAt(data, at + 1, path, table, |data|)
    case DiscardSink => TagAt(data, at, 2) && at + 1 == |data|
  }

  /** Where scan `k` starts: after domain, query and the number of scans, each where the last ended. */
  function ScanStart(domain: text, query: text, scans: seq<ResolvedScan>, k: nat): nat
    requires k <= |scans|
  {
    if k == 0 then 8 + |domain| + 8 + |query| + 8
    else ScanStart(domain, query, scans, k - 1) + ScanWidth(scans[k - 1])
  }

  predicate ScanBetween(data: text, domain: text, query: text, scans: seq<ResolvedScan>, k: nat)
    requires k < |scans|
  {
    ScanStands(data, scans[k], ScanStart(domain, query, scans, k), ScanStart(domain, query, scans, k + 1))
  }

  predicate StreamStands(data: text, domain: text, query: text, scans: seq<ResolvedScan>, sink: ResolvedSink)
  {
    && TwoAt(data, 0, domain, query, 16 + |domain| + |query|)
    && NumberAt(data, 16 + |domain| + |query|, |scans|, 24 + |domain| + |query|)
    && (forall k :: 0 <= k < |scans| ==> ScanBetween(data, domain, query, scans, k))
    && SinkStands(data, sink, ScanStart(domain, query, scans, |scans|))
  }

  /** What follows from `at` on. */
  ghost predicate FollowsAt(data: text, at: nat, rest: text)
  {
    at <= |data| && data[at..] == rest
  }

  lemma TextThen(data: text, at: nat, value: text, end: nat, rest: text)
    requires Short(value) && end == at + 8 + |value| && FollowsAt(data, at, Prefixed(value) + rest)
    ensures TextAt(data, at, value, end) && FollowsAt(data, end, rest)
  {
    assert data[at..|data|] == data[at..];
    Cut(data, at, end, |data|, Prefixed(value), rest);
    Cut(data, at, at + 8, end, Encode(|value|, 8), value);
    LongIff(data, at, |value|);
  }

  lemma LastTextThen(data: text, at: nat, value: text)
    requires Short(value) && FollowsAt(data, at, Prefixed(value))
    ensures TextAt(data, at, value, |data|)
  {
    assert Prefixed(value) + [] == Prefixed(value);
    TextThen(data, at, value, |data|, []);
  }

  lemma NumberThen(data: text, at: nat, n: nat, end: nat, rest: text)
    requires at + 8 == end && n < WORD && FollowsAt(data, at, Encode(n, 8) + rest)
    ensures NumberAt(data, at, n, end) && FollowsAt(data, end, rest)
  {
    assert data[at..|data|] == data[at..];
    Cut(data, at, end, |data|, Encode(n, 8), rest);
    LongIff(data, at, n);
  }

  lemma TagThen(data: text, at: nat, tag: byte, end: nat, rest: text)
    requires end == at + 1 && FollowsAt(data, at, [tag] + rest)
    ensures TagAt(data, at, tag) && FollowsAt(data, end, rest)
  {
    assert data[at] == data[at..][0] == tag;
    assert data[at..|data|] == data[at..];
    Cut(data, at, end, |data|, [tag], rest);
  }

  lemma TwoThen(data: text, at: nat, a: text, b: text, end: nat, rest: text)
    requires Short(a) && Short(b) && end == at + 16 + |a| + |b|
    requires FollowsAt(data, at, Prefixed(a) + (Prefixed(b) + rest))
    ensures TwoAt(data, at, a, b, end) && FollowsAt(data, end, rest)
  {
    TextThen(data, at, a, at + 8 + |a|, Prefixed(b) + rest);
    TextThen(data, at + 8 + |a|, b, end, rest);
  }

  lemma TwoPairs(data: text, at: nat, a: text, b: text, mid: nat, c: text, d: text, end: nat)
    requires mid == at + 16 + |a| + |b| && TwoAt(data, at, a, b, mid) && TwoAt(data, mid, c, d, end)
    ensures FourAt(data, at, a, b, c, d, end)
  {
  }

  lemma FourThen(data: text, at: nat, a: text, b: text, c: text, d: text, end: nat, rest: text)
    requires Short(a) && Short(b) && Short(c) && Short(d) && end == at + 32 + |a| + |b| + |c| + |d|
    requires FollowsAt(data, at, Prefixed(a) + (Prefixed(b) + (Prefixed(c) + (Prefixed(d) + rest))))
    ensures FourAt(data, at, a, b, c, d, end) && FollowsAt(data, end, rest)
  {
    var mid := at + 16 + |a| + |b|;
    TwoThen(data, at, a, b, mid, Prefixed(c) + (Prefixed(d) + rest));
    TwoThen(data, mid, c, d, end, rest);
    TwoPairs(data, at, a, b, mid, c, d, end);
  }

  /** Four texts and a number, one after the other. */
  lemma FiveThen(data: text, at: nat, a: text, b: text, c: text, d: text, n: nat, end: nat, rest: text)
    requires Short(a) && Short(b) && Short(c) && Short(d) && n < WORD && end == at + 32 + |a| + |b| + |c| + |d|
    requires FollowsAt(data, at, Prefixed(a) + (Prefixed(b) + (Prefixed(c) + (Prefixed(d) + (Encode(n, 8) + rest)))))
    ensures FourAt(data, at, a, b, c, d, end) && NumberAt(data, end, n, end + 8) && FollowsAt(data, end + 8, rest)
  {
    FourThen(data, at, a, b, c, d, end, Encode(n, 8) + rest);
    NumberThen(data, end, n, end + 8, rest);
  }

  lemma PostgresThen(data: text, s: ResolvedScan, at: nat, end: nat, rest: text)
    requires s.PostgresScan? && ScanOk(s) && TagAt(data, at, 1) && end == at + ScanWidth(s)
    requires FollowsAt(data, at + 1,
                       Prefixed(s.connection.database) + (Prefixed(s.schema)
                       + (Prefixed(s.table) + (Prefixed(s.publication) + (Encode(s.spool, 8) + rest)))))
    ensures ScanStands(data, s, at, end) && FollowsAt(data, end, rest)
  {
    FiveThen(data, at + 1, s.connection.database, s.schema, s.table, s.publication, s.spool, end - 8, rest);
  }

  lemma MySqlThen(data: text, s: ResolvedScan, at: nat, end: nat, rest: text)
    requires s.MySqlScan? && ScanOk(s) && TagAt(data, at, 2) && end == at + ScanWidth(s)
    requires FollowsAt(data, at + 1,
                       Prefixed(s.connection.database) + (Prefixed(s.table) + (Encode(s.spool, 8) + rest)))
    ensures ScanStands(data, s, at, end) && FollowsAt(data, end, rest)
  {
    TwoThen(data, at + 1, s.connection.database, s.table, end - 8, Encode(s.spool, 8) + rest);
    NumberThen(data, end - 8, s.spool, end, rest);
  }

  /** Where a scan is written it stands, and what follows follows. */
  lemma ScanThen(data: text, s: ResolvedScan, at: nat, end: nat, rest: text)
    requires ScanOk(s) && end == at + ScanWidth(s) && FollowsAt(data, at, ScanBytes(s) + rest)
    ensures ScanStands(data, s, at, end) && FollowsAt(data, end, rest)
  {
    var tag := ScanBytes(s)[0];
    assert ScanBytes(s) == [tag] + Tail(s);
    Assoc([tag], Tail(s), rest);
    TagThen(data, at, tag, at + 1, Tail(s) + rest);
    match s
    case SequenceScan(start) =>
      assert Tail(s) == Encode(start, 8);
      NumberThen(data, at + 1, start, end, rest);
    case PostgresScan(_, _, _, _, _) =>
      Unfold(s, rest);
      PostgresThen(data, s, at, end, rest);
    case MySqlScan(_, _, _) =>
      UnfoldMySql(s, rest);
      MySqlThen(data, s, at, end, rest);
  }

  lemma PairThen(data: text, tag: byte, a: text, b: text, at: nat)
    requires Short(a) && Short(b) && FollowsAt(data, at, [tag] + (Prefixed(a) + Prefixed(b)))
    ensures TagAt(data, at, tag) && TwoAt(data, at + 1, a, b, |data|)
  {
    TagThen(data, at, tag, at + 1, Prefixed(a) + Prefixed(b));
    TextThen(data, at + 1, a, at + 1 + 8 + |a|, Prefixed(b));
    LastTextThen(data, at + 1 + 8 + |a|, b);
  }

  lemma TripleThen(data: text, a: text, b: text, c: text, at: nat)
    requires Short(a) && Short(b) && Short(c)
    requires FollowsAt(data, at, [0] + (Prefixed(a) + (Prefixed(b) + Prefixed(c))))
    ensures TagAt(data, at, 0) && ThreeAt(data, at + 1, a, b, c, |data|)
  {
    TagThen(data, at, 0, at + 1, Prefixed(a) + (Prefixed(b) + Prefixed(c)));
    TwoThen(data, at + 1, a, b, at + 1 + 16 + |a| + |b|, Prefixed(c));
    LastTextThen(data, at + 1 + 16 + |a| + |b|, c);
  }

  lemma SinkThen(data: text, s: ResolvedSink, at: nat)
    requires SinkOk(s) && FollowsAt(data, at, SinkBytes(s))
    ensures SinkStands(data, s, at)
  {
    match s
    case ClickHouseSink(connection, _, table) => PairThen(data, 3, connection.database, table, at);
    case DorisSink(connection, _, table) => PairThen(data, 4, connection.database, table, at);
    case PostgresSink(connection, namespace, table) => TripleThen(data, connection.database, namespace, table, at);
    case SqliteSink(path, table) => PairThen(data, 1, path, table, at);
    case DiscardSink =>
      assert [2] + [] == [2];
      TagThen(data, at, 2, at + 1, []);
  }

  lemma ScansFirst(scans: seq<ResolvedScan>, k: nat, rest: text)
    requires k < |scans|
    ensures ScansBytes(scans[k..]) + rest == ScanBytes(scans[k]) + (ScansBytes(scans[k + 1..]) + rest)
  {
    assert scans[k..][0] == scans[k] && scans[k..][1..] == scans[k + 1..];
    Assoc(ScanBytes(scans[k]), ScansBytes(scans[k + 1..]), rest);
  }

  lemma NextScan(data: text, domain: text, query: text, scans: seq<ResolvedScan>, k: nat, rest: text)
    requires k < |scans| && ScanOk(scans[k])
    requires FollowsAt(data, ScanStart(domain, query, scans, k), ScansBytes(scans[k..]) + rest)
    ensures ScanBetween(data, domain, query, scans, k)
    ensures FollowsAt(data, ScanStart(domain, query, scans, k + 1), ScansBytes(scans[k + 1..]) + rest)
  {
    ScansFirst(scans, k, rest);
    ScanThen(data, scans[k], ScanStart(domain, query, scans, k), ScanStart(domain, query, scans, k + 1),
             ScansBytes(scans[k + 1..]) + rest);
  }

  /** The scans from `k` on, one after the other. */
  lemma {:induction false} ScansThen(data: text, domain: text, query: text, scans: seq<ResolvedScan>, k: nat,
                                     rest: text)
    requires k <= |scans| && forall j :: 0 <= j < |scans| ==> ScanOk(scans[j])
    requires FollowsAt(data, ScanStart(domain, query, scans, k), ScansBytes(scans[k..]) + rest)
    ensures FollowsAt(data, ScanStart(domain, query, scans, |scans|), rest)
    ensures forall j :: k <= j < |scans| ==> ScanBetween(data, domain, query, scans, j)
    decreases |scans| - k
  {
    if k < |scans| {
      NextScan(data, domain, query, scans, k, rest);
      ScansThen(data, domain, query, scans, k + 1, rest);
    } else {
      assert scans[k..] == [] && [] + rest == rest;
    }
  }

  lemma HeadThen(data: text, domain: text, query: text, count: nat, rest: text)
    requires Short(domain) && Short(query) && count < WORD
    requires data == Prefixed(domain) + (Prefixed(query) + (Encode(count, 8) + rest))
    ensures TwoAt(data, 0, domain, query, 16 + |domain| + |query|)
    ensures NumberAt(data, 16 + |domain| + |query|, count, 24 + |domain| + |query|)
    ensures FollowsAt(data, 24 + |domain| + |query|, rest)
  {
    assert data[0..] == data;
    TwoThen(data, 0, domain, query, 16 + |domain| + |query|, Encode(count, 8) + rest);
    NumberThen(data, 16 + |domain| + |query|, count, 24 + |domain| + |query|, rest);
  }

  /** The whole stream stands, byte by byte. */
  lemma IdentityStands(domain: text, p: Program)
    requires Short(domain) && ProgramOk(p)
    ensures StreamStands(IdentityBytes(domain, p.query, p.scans, p.sink), domain, p.query, p.scans, p.sink)
  {
    var data := IdentityBytes(domain, p.query, p.scans, p.sink);
    HeadThen(data, domain, p.query, |p.scans|, ScansBytes(p.scans) + SinkBytes(p.sink));
    assert p.scans[0..] == p.scans;
    ScansThen(data, domain, p.query, p.scans, 0, SinkBytes(p.sink));
    SinkThen(data, p.sink, ScanStart(domain, p.query, p.scans, |p.scans|));
  }

  lemma {:induction false} ScansMore(scans: seq<ResolvedScan>, k: nat)
    requires k < |scans|
    ensures ScansBytes(scans[..k + 1]) == ScansBytes(scans[..k]) + ScanBytes(scans[k])
    decreases k
  {
    if k == 0 {
      assert scans[..1][1..] == [] && scans[..0] == [];
    } else {
      assert scans[..k + 1][1..] == scans[1..][..k] && scans[..k][1..] == scans[1..][..k - 1];
      ScansMore(scans[1..], k - 1);
    }
  }

  /** Writes the stream that the identity hashes. */
  method Identity(domain: text, query: text, scans: seq<ResolvedScan>, sink: ResolvedSink) returns (encoded: text)
    ensures encoded == IdentityBytes(domain, query, scans, sink)
    ensures Short(domain) && ProgramOk(Program(query, scans, sink)) ==>
      StreamStands(encoded, domain, query, scans, sink)
  {
    if Short(domain) && ProgramOk(Program(query, scans, sink)) {
      IdentityStands(domain, Program(query, scans, sink));
    }
    var buffer := new IdentityBuffer();
    buffer.WriteBytes(domain);
    buffer.WriteBytes(query);
    buffer.WriteU64(|scans|);
    ghost var head := buffer.encoded;
    for k := 0 to |scans|
      invariant buffer.encoded == head + ScansBytes(scans[..k])
    {
      ScansMore(scans, k);
      Assoc(head, ScansBytes(scans[..k]), ScanBytes(scans[k]));
      buffer.WriteScan(scans[k]);
    }
    assert scans[..|scans|] == scans;
    buffer.WriteSink(sink);
    encoded := buffer.encoded;
    assert [] + Prefixed(domain) == Prefixed(domain);
    Join4(Prefixed(domain), Prefixed(query), Encode(|scans|, 8), ScansBytes(scans), SinkBytes(sink));
  }

  // ---- What the stream determines -----------------------------------------

  /** The parts of a scan that belong to its identity, with the table argument as it was given. */
  datatype ScanIdentity =
    | OfSequence(start: nat)
    | OfPostgres(database: text, qualified: text, publication: text, spool: nat)
    | OfMySql(qualified: text, spool: nat)

  datatype SinkIdentity =
    | OfClickHouse(qualified: text)
    | OfDoris(qualified: text)
    | OfPostgresSink(database: text, qualified: text)
    | OfSqlite(path: text, table: text)
    | OfDiscard

  function Qualified(namespace: text, table: text): text
  {
    namespace + [DOT] + table
  }

  function ScanIdentityOf(s: ResolvedScan): ScanIdentity
  {
    match s
    case SequenceScan(start) => OfSequence(start)
    case PostgresScan(connection, schema, table, publication, spool) =>
      OfPostgres(connection.database, Qualified(schema, table), publication, spool)
    case MySqlScan(connection, table, spool) => OfMySql(Qualified(connection.database, table), spool)
  }

  function SinkIdentityOf(s: ResolvedSink): SinkIdentity
  {
    match s
    case ClickHouseSink(_, namespace, table) => OfClickHouse(Qualified(namespace, table))
    case DorisSink(_, namespace, table) => OfDoris(Qualified(namespace, table))
    case PostgresSink(connection, namespace, table) => OfPostgresSink(connection.database, Qualified(namespace, table))
    case SqliteSink(path, table) => OfSqlite(path, table)
    case DiscardSink => OfDiscard
  }

  /** Texts that fit in memory, and 64-bit integers. */
  predicate Short(value: text)
  {
    |value| < WORD
  }

  predicate ScanOk(s: ResolvedScan)
  {
    match s
    case SequenceScan(start) => start < WORD
    case PostgresScan(connection, schema, table, publication, spool) =>
      Short(connection.database) && Short(schema) && Short(table) && Short(publication) && spool < WORD
    case MySqlScan(connection, table, spool) => Short(connection.database) && Short(table) && spool < WORD
  }

  predicate SinkOk(s: ResolvedSink)
  {
    match s
    case ClickHouseSink(connection, namespace, table) =>
      connection.database == namespace && Short(namespace) && Short(table)
    case DorisSink(connection, namespace, table) => connection.database == namespace && Short(namespace) && Short(table)
    case PostgresSink(connection, namespace, table) => Short(connection.database) && Short(namespace) && Short(table)
    case SqliteSink(path, table) => Short(path) && Short(table)
    case DiscardSink => true
  }

  lemma WordPrefix(n: nat, m: nat, a: text, b: text)
    requires n < WORD && m < WORD && Encode(n, 8) + a == Encode(m, 8) + b
    ensures n == m && a == b
  {
    Widths();
    SplitEqual(Encode(n, 8), a, Encode(m, 8), b);
    DecodeEncode(n, 8);
    DecodeEncode(m, 8);
  }

  lemma PrefixedPrefix(v: text, w: text, a: text, b: text)
    requires Short(v) && Short(w) && Prefixed(v) + a == Prefixed(w) + b
    ensures v == w && a == b
  {
    Assoc(Encode(|v|, 8), v, a);
    Assoc(Encode(|w|, 8), w, b);
    WordPrefix(|v|, |w|, v + a, w + b);
    SplitEqual(v, a, w, b);
  }

  lemma TagPrefix(s: byte, t: byte, a: text, b: text)
    requires [s] + a == [t] + b
    ensures s == t && a == b
  {
    SplitEqual([s], a, [t], b);
  }

  lemma PostgresPrefix(s: ResolvedScan, t: ResolvedScan, a: text, b: text)
    requires s.PostgresScan? && t.PostgresScan? && ScanOk(s) && ScanOk(t)
    requires Tail(s) + a == Tail(t) + b
    ensures ScanIdentityOf(s) == ScanIdentityOf(t) && a == b
  {
    Unfold(s, a);
    Unfold(t, b);
    var a3, b3 := Prefixed(s.publication) + (Encode(s.spool, 8) + a),
      Prefixed(t.publication) + (Encode(t.spool, 8) + b);
    PrefixedPrefix(s.connection.database, t.connection.database, Prefixed(s.schema) + (Prefixed(s.table) + a3),
                   Prefixed(t.schema) + (Prefixed(t.table) + b3));
    PrefixedPrefix(s.schema, t.schema, Prefixed(s.table) + a3, Prefixed(t.table) + b3);
    PrefixedPrefix(s.table, t.table, a3, b3);
    PrefixedPrefix(s.publication, t.publication, Encode(s.spool, 8) + a, Encode(t.spool, 8) + b);
    WordPrefix(s.spool, t.spool, a, b);
  }

  /** The bytes after the tag. */
  function Tail(s: ResolvedScan): text
  {
    ScanBytes(s)[1..]
  }

  lemma Unfold(s: ResolvedScan, a: text)
    requires s.PostgresScan?
    ensures Tail(s) + a
        == Prefixed(s.connection.database) + (Prefixed(s.schema)
           + (Prefixed(s.table) + (Prefixed(s.publication) + (Encode(s.spool, 8) + a))))
  {
    var e4 := Prefixed(s.publication) + Encode(s.spool, 8);
    var e3 := Prefixed(s.table) + e4;
    var e2 := Prefixed(s.schema) + e3;
    assert Tail(s) == Prefixed(s.connection.database) + e2;
    Assoc(Prefixed(s.connection.database), e2, a);
    Assoc(Prefixed(s.schema), e3, a);
    Assoc(Prefixed(s.table), e4, a);
    Assoc(Prefixed(s.publication), Encode(s.spool, 8), a);
  }

  lemma MySqlPrefix(s: ResolvedScan, t: ResolvedScan, a: text, b: text)
    requires s.MySqlScan? && t.MySqlScan? && ScanOk(s) && ScanOk(t)
    requires Tail(s) + a == Tail(t) + b
    ensures ScanIdentityOf(s) == ScanIdentityOf(t) && a == b
  {
    UnfoldMySql(s, a);
    UnfoldMySql(t, b);
    var a2, b2 := Encode(s.spool, 8) + a, Encode(t.spool, 8) + b;
    PrefixedPrefix(s.connection.database, t.connection.database, Prefixed(s.table) + a2, Prefixed(t.table) + b2);
    PrefixedPrefix(s.table, t.table, a2, b2);
    WordPrefix(s.spool, t.spool, a, b);
  }

  lemma UnfoldMySql(s: ResolvedScan, a: text)
    requires s.MySqlScan?
    ensures Tail(s) + a == Prefixed(s.connection.database) + (Prefixed(s.table) + (Encode(s.spool, 8) + a))
  {
    var e2 := Prefixed(s.table) + Encode(s.spool, 8);
    assert Tail(s) == Prefixed(s.connection.database) + e2;
    Assoc(Prefixed(s.connection.database), e2, a);
    Assoc(Prefixed(s.table), Encode(s.spool, 8), a);
  }

  /** The encoding of a scan ends where it says, and determines the scan's identity. */
  lemma ScanPrefix(s: ResolvedScan, t: ResolvedScan, a: text, b: text)
    requires ScanOk(s) && ScanOk(t) && ScanBytes(s) + a == ScanBytes(t) + b
    ensures ScanIdentityOf(s) == ScanIdentityOf(t) && a == b
  {
    var x, y := ScanBytes(s)[0], ScanBytes(t)[0];
    assert ScanBytes(s) == [x] + Tail(s) && ScanBytes(t) == [y] + Tail(t);
    Assoc([x], Tail(s), a);
    Assoc([y], Tail(t), b);
    TagPrefix(x, y, Tail(s) + a, Tail(t) + b);
    match s
    case SequenceScan(start) =>
      assert Tail(s) == Encode(start, 8) && Tail(t) == Encode(t.start, 8);
      WordPrefix(start, t.start, a, b);
    case PostgresScan(_, _, _, _, _) => PostgresPrefix(s, t, a, b);
    case MySqlScan(_, _, _) => MySqlPrefix(s, t, a, b);
  }

  /** The encoding of a sink determines its identity; the namespace that is not written is the
      database that is. */
  lemma SinkDetermined(s: ResolvedSink, t: ResolvedSink)
    requires SinkOk(s) && SinkOk(t) && SinkBytes(s) == SinkBytes(t)
    ensures SinkIdentityOf(s) == SinkIdentityOf(t)
  {
    assert SinkBytes(s)[0] == SinkBytes(t)[0];
    match s
    case ClickHouseSink(c, _, table) => TwoTexts(3, c.database, table, t.connection.database, t.table);
    case DorisSink(c, _, table) => TwoTexts(4, c.database, table, t.connection.database, t.table);
    case SqliteSink(path, table) => TwoTexts(1, path, table, t.path, t.table);
    case PostgresSink(c, namespace, table) =>
      TagPrefix(0, 0, Prefixed(c.database) + (Prefixed(namespace) + Prefixed(table)),
                Prefixed(t.connection.database) + (Prefixed(t.namespace) + Prefixed(t.table)));
      PrefixedPrefix(c.database, t.connection.database, Prefixed(namespace) + Prefixed(table),
                     Prefixed(t.namespace) + Prefixed(t.table));
      PrefixedPrefix(namespace, t.namespace, Prefixed(table), Prefixed(t.table));
      LastText(table, t.table);
    case DiscardSink =>
  }

  lemma TwoTexts(tag: byte, u: text, v: text, u': text, v': text)
    requires Short(u) && Short(v) && Short(u') && Short(v')
    requires [tag] + (Prefixed(u) + Prefixed(v)) == [tag] + (Prefixed(u') + Prefixed(v'))
    ensures u == u' && v == v'
  {
    TagPrefix(tag, tag, Prefixed(u) + Prefixed(v), Prefixed(u') + Prefixed(v'));
    PrefixedPrefix(u, u', Prefixed(v), Prefixed(v'));
    LastText(v, v');
  }

  lemma LastText(v: text, w: text)
    requires Short(v) && Short(w) && Prefixed(v) == Prefixed(w)
    ensures v == w
  {
    assert Prefixed(v) + [] == Prefixed(v) && Prefixed(w) + [] == Prefixed(w);
    PrefixedPrefix(v, w, [], []);
  }

  lemma {:induction false} ScansPrefix(ss: seq<ResolvedScan>, ts: seq<ResolvedScan>, a: text, b: text)
    requires |ss| == |ts| && (forall k :: 0 <= k < |ss| ==> ScanOk(ss[k]) && ScanOk(ts[k]))
    requires ScansBytes(ss) + a == ScansBytes(ts) + b
    ensures a == b && forall k :: 0 <= k < |ss| ==> ScanIdentityOf(ss[k]) == ScanIdentityOf(ts[k])
  {
    if ss == [] {
      assert [] + a == a && [] + b == b;
    } else {
      Assoc(ScanBytes(ss[0]), ScansBytes(ss[1..]), a);
      Assoc(ScanBytes(ts[0]), ScansBytes(ts[1..]), b);
      ScanPrefix(ss[0], ts[0], ScansBytes(ss[1..]) + a, ScansBytes(ts[1..]) + b);
      ScansPrefix(ss[1..], ts[1..], a, b);
      assert forall k :: 0 < k < |ss| ==> ss[k] == ss[1..][k - 1] && ts[k] == ts[1..][k - 1];
    }
  }

  /** A program with its endpoints resolved. */
  datatype Program = Program(query: text, scans: seq<ResolvedScan>, sink: ResolvedSink)

  predicate ProgramOk(p: Program)
  {
    Short(p.query) && |p.scans| < WORD && SinkOk(p.sink) && forall k :: 0 <= k < |p.scans| ==> ScanOk(p.scans[k])
  }

  /** Equal identity streams mean the same query, the same list of scans and the same sink. */
  lemma IdentityIsInjective(domain: text, p: Program, q: Program)
    requires Short(domain) && ProgramOk(p) && ProgramOk(q)
    requires IdentityBytes(domain, p.query, p.scans, p.sink) == IdentityBytes(domain, q.query, q.scans, q.sink)
    ensures p.query == q.query && |p.scans| == |q.scans| && SinkIdentityOf(p.sink) == SinkIdentityOf(q.sink)
    ensures forall k :: 0 <= k < |p.scans| ==> ScanIdentityOf(p.scans[k]) == ScanIdentityOf(q.scans[k])
  {
    var a3, b3 := ScansBytes(p.scans) + SinkBytes(p.sink), ScansBytes(q.scans) + SinkBytes(q.sink);
    var a2, b2 := Encode(|p.scans|, 8) + a3, Encode(|q.scans|, 8) + b3;
    PrefixedPrefix(domain, domain, Prefixed(p.query) + a2, Prefixed(q.query) + b2);
    PrefixedPrefix(p.query, q.query, a2, b2);
    WordPrefix(|p.scans|, |q.scans|, a3, b3);
    ScansPrefix(p.scans, q.scans, SinkBytes(p.sink), SinkBytes(q.sink));
    SinkDetermined(p.sink, q.sink);
  }

  /** The table argument a sink was resolved from is the one its identity names. */
  lemma SinkRecovered(w: World, e: SinkEndpoint, s: ResolvedSink)
    requires ResolveSink(w, e) == Some(s) && (e.ClickHouse? || e.Doris? || e.Postgres?)
    ensures Get(e.arguments, TABLE).Some?
    ensures Resolve(w, Get(e.arguments, TABLE).value) == Some(Qualified(s.namespace, s.table))
    ensures (e.ClickHouse? || e.Doris?) ==> s.connection.database == s.namespace
  {
    QualifiedIff(Resolve(w, Get(e.arguments, TABLE).value).value, s.namespace, s.table);
  }

  /** The same for scans; the MySQL namespace, which is not kept, is the connection's database. */
  lemma ScanRecovered(w: World, e: ScanEndpoint, s: ResolvedScan)
    requires ResolveScan(w, e) == Some(s) && (e.PostgresCdc? || e.MySqlCdc?)
    ensures Get(e.arguments, TABLE).Some?
    ensures Resolve(w, Get(e.arguments, TABLE).value)
        == Some(Qualified(if s.PostgresScan? then s.schema else s.connection.database, s.table))
  {
    QualifiedIff(Resolve(w, Get(e.arguments, TABLE).value).value,
                 if s.PostgresScan? then s.schema else s.connection.database, s.table);
  }

  // ---- From the stream back to the arguments ------------------------------

  /** A program as it is written: endpoints with their named arguments. */
  datatype Source = Source(query: text, scans: seq<ScanEndpoint>, sink: SinkEndpoint)

  predicate Resolves(w: World, p: Source)
  {
    ResolveSink(w, p.sink).Some? && forall k :: 0 <= k < |p.scans| ==> ResolveScan(w, p.scans[k]).Some?
  }

  function ResolveProgram(w: World, p: Source): (r: Program)
    requires Resolves(w, p)
    ensures |r.scans| == |p.scans|
  {
    Program(p.query, seq(|p.scans|, k requires 0 <= k < |p.scans| => ResolveScan(w, p.scans[k]).value),
            ResolveSink(w, p.sink).value)
  }

  /** What the environment holds fits in memory. */
  ghost predicate Bounded(w: World)
  {
    && (forall name :: w.env(name).Some? ==> Short(w.env(name).value))
    && (forall value :: w.url(value).Some? ==> Short(w.url(value).value.database))
  }

  /** So do the literals of an endpoint. */
  ghost predicate ShortLiterals(a: Arguments)
  {
    forall name :: Get(a, name).Some? && Get(a, name).value.Literal? ==> Short(Get(a, name).value.value)
  }

  ghost predicate InMemory(w: World, p: Source)
  {
    && Bounded(w) && Short(p.query) && |p.scans| < WORD
    && (!p.sink.Discard? ==> ShortLiterals(p.sink.arguments))
    && forall k :: 0 <= k < |p.scans| ==> ShortLiterals(p.scans[k].arguments)
  }

  /** The identity-relevant arguments of a scan, as they resolve in its world. */
  function GivenScan(w: World, e: ScanEndpoint): ScanIdentity
    requires ResolveScan(w, e).Some?
  {
    match e
    case Sequence(a) => OfSequence(ResolveU64(w, Get(a, START).value).value)
    case PostgresCdc(a) =>
      OfPostgres(ConnectionOf(w, a).value.database, TextOf(w, a, TABLE).value, TextOf(w, a, PUBLICATION).value,
                 SpoolOf(w, a).value)
    case MySqlCdc(a) => OfMySql(TextOf(w, a, TABLE).value, SpoolOf(w, a).value)
  }

  function GivenSink(w: World, e: SinkEndpoint): SinkIdentity
    requires ResolveSink(w, e).Some?
  {
    match e
    case ClickHouse(a) => OfClickHouse(TextOf(w, a, TABLE).value)
    case Doris(a) => OfDoris(TextOf(w, a, TABLE).value)
    case Postgres(a) => OfPostgresSink(ConnectionOf(w, a).value.database, TextOf(w, a, TABLE).value)
    case Sqlite(a) => OfSqlite(TextOf(w, a, PATH).value, TextOf(w, a, TABLE).value)
    case Discard => OfDiscard
  }

  lemma ShortText(w: World, a: Arguments, name: text)
    requires Bounded(w) && ShortLiterals(a)
    ensures TextOf(w, a, name).Some? ==> Short(TextOf(w, a, name).value)
  {
  }

  lemma ShortTable(w: World, a: Arguments)
    requires Bounded(w) && ShortLiterals(a) && TableOf(w, a).Some?
    ensures Short(TableOf(w, a).value.0) && Short(TableOf(w, a).value.1)
    ensures TextOf(w, a, TABLE) == Some(Qualified(TableOf(w, a).value.0, TableOf(w, a).value.1))
  {
    var (namespace, table) := TableOf(w, a).value;
    ShortText(w, a, TABLE);
    QualifiedIff(TextOf(w, a, TABLE).value, namespace, table);
  }

  /** What a scan resolves to is well formed, and its identity is what its arguments say. */
  lemma ScanGiven(w: World, e: ScanEndpoint)
    requires Bounded(w) && ShortLiterals(e.arguments) && ResolveScan(w, e).Some?
    ensures ScanOk(ResolveScan(w, e).value) && ScanIdentityOf(ResolveScan(w, e).value) == GivenScan(w, e)
  {
    if !e.Sequence? {
      ShortTable(w, e.arguments);
      ShortText(w, e.arguments, PUBLICATION);
    }
  }

  /** The same for a sink: resolving is what makes the unwritten namespace the database. */
  lemma SinkGiven(w: World, e: SinkEndpoint)
    requires Bounded(w) && (!e.Discard? ==> ShortLiterals(e.arguments)) && ResolveSink(w, e).Some?
    ensures SinkOk(ResolveSink(w, e).value) && SinkIdentityOf(ResolveSink(w, e).value) == GivenSink(w, e)
  {
    if e.Sqlite? {
      ShortText(w, e.arguments, PATH);
      ShortText(w, e.arguments, TABLE);
    } else if !e.Discard? {
      ShortTable(w, e.arguments);
    }
  }

  /** Equal arguments give equal bytes: the two components of a table are read back from it. */
  lemma ScanBytesGiven(w: World, e: ScanEndpoint, w': World, e': ScanEndpoint)
    requires ResolveScan(w, e).Some? && ResolveScan(w', e').Some? && GivenScan(w, e) == GivenScan(w', e')
    ensures ScanBytes(ResolveScan(w, e).value) == ScanBytes(ResolveScan(w', e').value)
  {
  }

  lemma SinkBytesGiven(w: World, e: SinkEndpoint, w': World, e': SinkEndpoint)
    requires ResolveSink(w, e).Some? && ResolveSink(w', e').Some? && GivenSink(w, e) == GivenSink(w', e')
    ensures SinkBytes(ResolveSink(w, e).value) == SinkBytes(ResolveSink(w', e').value)
  {
  }

  lemma {:induction false} ScansBytesSame(ss: seq<ResolvedScan>, ts: seq<ResolvedScan>)
    requires |ss| == |ts| && forall k :: 0 <= k < |ss| ==> ScanBytes(ss[k]) == ScanBytes(ts[k])
    ensures ScansBytes(ss) == ScansBytes(ts)
  {
    if ss != [] {
      ScansBytesSame(ss[1..], ts[1..]);
    }
  }

  /** Two programs say the same, each in its own world. */
  ghost predicate SaysTheSame(w: World, p: Source, w': World, q: Source)
    requires Resolves(w, p) && Resolves(w', q)
  {
    && p.query == q.query && |p.scans| == |q.scans| && GivenSink(w, p.sink) == GivenSink(w', q.sink)
    && forall k :: 0 <= k < |p.scans| ==> GivenScan(w, p.scans[k]) == GivenScan(w', q.scans[k])
  }

  function StreamOf(domain: text, w: World, p: Source): text
    requires Resolves(w, p)
  {
    var r := ResolveProgram(w, p);
    IdentityBytes(domain, r.query, r.scans, r.sink)
  }

  lemma ProgramGiven(w: World, p: Source)
    requires Resolves(w, p) && InMemory(w, p)
    ensures var r := ResolveProgram(w, p);
      && ProgramOk(r) && SinkIdentityOf(r.sink) == GivenSink(w, p.sink)
      && forall k :: 0 <= k < |p.scans| ==> ScanIdentityOf(r.scans[k]) == GivenScan(w, p.scans[k])
  {
    SinkGiven(w, p.sink);
    forall k | 0 <= k < |p.scans|
      ensures ScanOk(ResolveScan(w, p.scans[k]).value)
      ensures ScanIdentityOf(ResolveScan(w, p.scans[k]).value) == GivenScan(w, p.scans[k])
    {
      ScanGiven(w, p.scans[k]);
    }
  }

  /** End to end: two programs that resolve have equal identity streams if and only if they have the
      same query and the same list of endpoints with the same identity-relevant arguments. */
  lemma SameStreamIff(domain: text, w: World, p: Source, w': World, q: Source)
    requires Short(domain) && Resolves(w, p) && Resolves(w', q) && InMemory(w, p) && InMemory(w', q)
    ensures StreamOf(domain, w, p) == StreamOf(domain, w', q) <==> SaysTheSame(w, p, w', q)
  {
    ProgramGiven(w, p);
    ProgramGiven(w', q);
    var r, t := ResolveProgram(w, p), ResolveProgram(w', q);
    if StreamOf(domain, w, p) == StreamOf(domain, w', q) {
      IdentityIsInjective(domain, r, t);
    }
    if SaysTheSame(w, p, w', q) {
      SinkBytesGiven(w, p.sink, w', q.sink);
      forall k | 0 <= k < |p.scans|
        ensures ScanBytes(r.scans[k]) == ScanBytes(t.scans[k])
      {
        ScanBytesGiven(w, p.scans[k], w', q.scans[k]);
      }
      ScansBytesSame(r.scans, t.scans);
    }
  }

  /** The stream behind a derived connector or sink name. */
  function DerivedBytes(domain: text, identity: text, statePath: text, index: nat): text
  {
    Prefixed(domain) + (Prefixed(identity) + (Prefixed(statePath) + Encode(index, 8)))
  }

  /** Its pieces stand in this order. */
  lemma DerivedStands(domain: text, identity: text, path: text, index: nat)
    requires Short(domain) && Short(identity) && Short(path) && index < WORD
    ensures var data := DerivedBytes(domain, identity, path, index);
      var end := 24 + |domain| + |identity| + |path|;
      ThreeAt(data, 0, domain, identity, path, end) && NumberAt(data, end, index, |data|)
  {
    var data := DerivedBytes(domain, identity, path, index);
    assert data[0..] == data;
    var end := 24 + |domain| + |identity| + |path|;
    TwoThen(data, 0, domain, identity, 16 + |domain| + |identity|, Prefixed(path) + Encode(index, 8));
    TextThen(data, 16 + |domain| + |identity|, path, end, Encode(index, 8));
    assert Encode(index, 8) + [] == Encode(index, 8);
    NumberThen(data, 24 + |domain| + |identity| + |path|, index, |data|, []);
  }

  /** Different programs, state paths or scan positions derive their names from different streams,
      and a scan's never coincides with a sink's. */
  lemma DerivedIsInjective(domain: text, identity: text, path: text, index: nat, domain': text, identity': text,
                           path': text, index': nat)
    requires Short(domain) && Short(identity) && Short(path) && index < WORD && Short(domain') && Short(identity')
    requires Short(path') && index' < WORD
    requires DerivedBytes(domain, identity, path, index) == DerivedBytes(domain', identity', path', index')
    ensures domain == domain' && identity == identity' && path == path' && index == index'
  {
    PrefixedPrefix(domain, domain', Prefixed(identity) + (Prefixed(path) + Encode(index, 8)),
                   Prefixed(identity') + (Prefixed(path') + Encode(index', 8)));
    PrefixedPrefix(identity, identity', Prefixed(path) + Encode(index, 8), Prefixed(path') + Encode(index', 8));
    PrefixedPrefix(path, path', Encode(index, 8), Encode(index', 8));
    assert Encode(index, 8) + [] == Encode(index, 8) && Encode(index', 8) + [] == Encode(index', 8);
    WordPrefix(index, index', [], []);
  }

  // ---- Argument order -----------------------------------------------------

  lemma ResolvesAlike(w: World, a: Arguments, b: Arguments)
    requires forall name :: Get(a, name) == Get(b, name)
    ensures ResolveScan(w, Sequence(a)) == ResolveScan(w, Sequence(b))
    ensures ResolveScan(w, PostgresCdc(a)) == ResolveScan(w, PostgresCdc(b))
    ensures ResolveScan(w, MySqlCdc(a)) == ResolveScan(w, MySqlCdc(b))
    ensures ResolveSink(w, ClickHouse(a)) == ResolveSink(w, ClickHouse(b))
    ensures ResolveSink(w, Doris(a)) == ResolveSink(w, Doris(b))
    ensures ResolveSink(w, Postgres(a)) == ResolveSink(w, Postgres(b))
    ensures ResolveSink(w, Sqlite(a)) == ResolveSink(w, Sqlite(b))
  {
  }

  /** Reordering the named arguments of an endpoint never changes what it resolves to, and so
      never changes the identity. */
  lemma ArgumentOrderIrrelevant(w: World, m: multiset<EndpointArguments.Argument>, expected: seq<Specification>,
                                a: Arguments, b: Arguments)
    requires Accepted(m, expected) && Gives(a, m, expected) && Gives(b, m, expected)
    ensures ResolveScan(w, Sequence(a)) == ResolveScan(w, Sequence(b))
    ensures ResolveScan(w, PostgresCdc(a)) == ResolveScan(w, PostgresCdc(b))
    ensures ResolveScan(w, MySqlCdc(a)) == ResolveScan(w, MySqlCdc(b))
    ensures ResolveSink(w, ClickHouse(a)) == ResolveSink(w, ClickHouse(b))
    ensures ResolveSink(w, Doris(a)) == ResolveSink(w, Doris(b))
    ensures ResolveSink(w, Postgres(a)) == ResolveSink(w, Postgres(b))
    ensures ResolveSink(w, Sqlite(a)) == ResolveSink(w, Sqlite(b))
  {
    forall name
      ensures Get(a, name) == Get(b, name)
    {
      OrderIrrelevant(a, b, m, expected, name);
    }
    ResolvesAlike(w, a, b);
  }
}
