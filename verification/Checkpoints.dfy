/** The checkpoint format: an offset-store image bound to one engine name and connector class. */
module Checkpoints {
  import opened Options
  import opened Sequences
  import opened BigEndian
  import opened WireInput

  const MAGIC: bytes := [68, 80, 68, 66, 67, 80, 48, 49]
  const VERSION: nat := 1
  const CHECKSUM_BYTES: nat := 4
  const MAX_CHECKPOINT_BYTES: nat := 64 * 1024 * 1024
  const MAX_BINDING_BYTES: nat := 1024 * 1024
  const MAX_ENTRY_BYTES: nat := 32 * 1024 * 1024
  const MAX_ENTRIES: nat := 1_000_000

  datatype Entry = Entry(key: bytes, value: bytes)

  datatype Image = Image(engineName: bytes, connectorClass: bytes, entries: seq<Entry>)

  function EncodeEntry(e: Entry): bytes
  {
    Field(e.key) + Field(e.value)
  }

  function EncodeEntries(es: seq<Entry>): bytes
  {
    if es == [] then [] else EncodeEntry(es[0]) + EncodeEntries(es[1..])
  }

  function Named(engineName: bytes, connectorClass: bytes, rest: bytes): bytes
  {
    Field(engineName) + (Field(connectorClass) + rest)
  }

  function Head(engineName: bytes, connectorClass: bytes, count: nat, rest: bytes): bytes
  {
    MAGIC + (U16(VERSION) + Named(engineName, connectorClass, U32(count) + rest))
  }

  function Body(i: Image): bytes
  {
    Head(i.engineName, i.connectorClass, |i.entries|, EncodeEntries(i.entries))
  }

  function EncodeCheckpoint(rules: Rules, i: Image): bytes
  {
    Body(i) + U32(rules.crc(Body(i)))
  }

  predicate LegalEntry(e: Entry)
  {
    0 < |e.key| <= MAX_ENTRY_BYTES && |e.value| <= MAX_ENTRY_BYTES
  }

  /** `key` may come after an entry with key `previous`. */
  predicate Follows(previous: Option<bytes>, key: bytes)
  {
    previous.Some? ==> LexLess(previous.value, key)
  }

  predicate LegalEntries(es: seq<Entry>)
  {
    && (forall k :: 0 <= k < |es| ==> LegalEntry(es[k]))
    && (forall k :: 0 < k < |es| ==> LexLess(es[k - 1].key, es[k].key))
  }

  predicate LegalBinding(rules: Rules, text: bytes)
  {
    |text| <= MAX_BINDING_BYTES && rules.utf8(text) && !rules.blank(text)
  }

  /** The offset-store images that have an encoding. */
  predicate Legal(rules: Rules, i: Image)
  {
    && LegalBinding(rules, i.engineName) && LegalBinding(rules, i.connectorClass)
    && |i.entries| <= MAX_ENTRIES && LegalEntries(i.entries)
    && |EncodeCheckpoint(rules, i)| <= MAX_CHECKPOINT_BYTES
  }

  ghost predicate IsCheckpoint(rules: Rules, data: bytes)
  {
    exists i :: Legal(rules, i) && data == EncodeCheckpoint(rules, i)
  }

  ghost predicate Framed(es: seq<Entry>)
  {
    forall k :: 0 <= k < |es| ==> |es[k].key| < U32_LIMIT && |es[k].value| < U32_LIMIT
  }

  lemma EntryPrefix(e: Entry, f: Entry, a: bytes, b: bytes)
    requires Framed([e]) && Framed([f]) && EncodeEntry(e) + a == EncodeEntry(f) + b
    ensures e == f && a == b
  {
    assert [e][0] == e && [f][0] == f;
    Assoc(Field(e.key), Field(e.value), a);
    Assoc(Field(f.key), Field(f.value), b);
    FieldPrefix(e.key, f.key, Field(e.value) + a, Field(f.value) + b);
    FieldPrefix(e.value, f.value, a, b);
  }

  lemma {:induction false} EntriesPrefix(es: seq<Entry>, fs: seq<Entry>, a: bytes, b: bytes)
    requires Framed(es) && Framed(fs) && |es| == |fs| && EncodeEntries(es) + a == EncodeEntries(fs) + b
    ensures es == fs && a == b
  {
    if es == [] {
      assert EncodeEntries(es) + a == a && EncodeEntries(fs) + b == b;
    } else {
      Assoc(EncodeEntry(es[0]), EncodeEntries(es[1..]), a);
      Assoc(EncodeEntry(fs[0]), EncodeEntries(fs[1..]), b);
      EntryPrefix(es[0], fs[0], EncodeEntries(es[1..]) + a, EncodeEntries(fs[1..]) + b);
      EntriesPrefix(es[1..], fs[1..], a, b);
      assert es == [es[0]] + es[1..] && fs == [fs[0]] + fs[1..];
    }
  }

  lemma {:induction false} EntriesConcat(es: seq<Entry>, fs: seq<Entry>)
    ensures EncodeEntries(es + fs) == EncodeEntries(es) + EncodeEntries(fs)
  {
    if es == [] {
      assert es + fs == fs;
    } else {
      assert (es + fs)[1..] == es[1..] + fs;
      EntriesConcat(es[1..], fs);
    }
  }

  lemma EntriesOne(e: Entry)
    ensures EncodeEntries([e]) == EncodeEntry(e)
  {
    assert [e][1..] == [];
    assert EncodeEntries([e]) == EncodeEntry(e) + EncodeEntries([]);
  }

  /** Sorted keys are distinct. */
  lemma {:induction false} KeysDistinct(es: seq<Entry>, j: nat, k: nat)
    requires LegalEntries(es) && j < k < |es|
    ensures LexLess(es[j].key, es[k].key) && es[j].key != es[k].key
    decreases k
  {
    if j < k - 1 {
      KeysDistinct(es, j, k - 1);
      LexLessTransitive(es[j].key, es[k - 1].key, es[k].key);
    }
    LexLessIrreflexive(es[j].key);
  }

  // ---- The format, byte by byte --------------------------------------------

  /** Where entry `k` of an image starts: after the binding and the count, each entry where the last ended. */
  function EntryStart(i: Image, k: nat): nat
    requires k <= |i.entries|
  {
    if k == 0 then 8 + 2 + 4 + |i.engineName| + 4 + |i.connectorClass| + 4
    else EntryStart(i, k - 1) + 4 + |i.entries[k - 1].key| + 4 + |i.entries[k - 1].value|
  }

  /** Between `at` and `end` stand a key and its value. */
  predicate EntryIn(data: bytes, e: Entry, at: nat, end: nat)
  {
    FieldAt(data, at, e.key, at + 4 + |e.key|) && FieldAt(data, at + 4 + |e.key|, e.value, end)
  }

  ghost predicate EntriesFrom(data: bytes, i: Image, k: nat)
  {
    forall j :: k <= j < |i.entries| ==> EntryIn(data, i.entries[j], EntryStart(i, j), EntryStart(i, j + 1))
  }

  /** What an image may hold. */
  predicate Within(rules: Rules, i: Image)
  {
    && |i.engineName| <= 1024 * 1024 && rules.utf8(i.engineName) && !rules.blank(i.engineName)
    && |i.connectorClass| <= 1024 * 1024 && rules.utf8(i.connectorClass) && !rules.blank(i.connectorClass)
    && |i.entries| <= 1_000_000
    && (forall k :: 0 <= k < |i.entries| ==>
      0 < |i.entries[k].key| <= 32 * 1024 * 1024 && |i.entries[k].value| <= 32 * 1024 * 1024)
    && (forall k :: 0 < k < |i.entries| ==> LexLess(i.entries[k - 1].key, i.entries[k].key))
  }

  /** The ASCII characters DPDBCP01 and the version 1 in two bytes. */
  predicate MarkedAt(data: bytes)
  {
    && |data| >= 10
    && data[0] == 68 && data[1] == 80 && data[2] == 68 && data[3] == 66 && data[4] == 67 && data[5] == 80
    && data[6] == 48 && data[7] == 49
    && data[8] == 0 && data[9] == 1
  }

  /** Magic and version, the engine name, the class and the number of entries stand one after the other. */
  predicate HeadAt(data: bytes, engineName: bytes, connectorClass: bytes, count: nat)
  {
    var class_ := 14 + |engineName|;
    var end := class_ + 4 + |connectorClass|;
    && MarkedAt(data) && FieldAt(data, 10, engineName, class_) && FieldAt(data, class_, connectorClass, end)
    && end + 4 <= |data| && WordAt(data, end) == count
  }

  ghost predicate ImageAt(data: bytes, i: Image)
  {
    HeadAt(data, i.engineName, i.connectorClass, |i.entries|) && EntriesFrom(data, i, 0)
  }

  /** The last four bytes, after the last entry, are the checksum of all that is before them. */
  ghost predicate Laid(rules: Rules, data: bytes, i: Image)
  {
    var end := EntryStart(i, |i.entries|);
    |data| == end + 4 && ImageAt(data[..end], i) && WordAt(data, end) == rules.crc(data[..end])
  }

  /** `data` is the checkpoint of this image. */
  ghost predicate Stored(rules: Rules, data: bytes, i: Image)
  {
    Within(rules, i) && |data| <= 64 * 1024 * 1024 && Laid(rules, data, i)
  }

  lemma EntriesDrop(es: seq<Entry>, k: nat)
    requires k < |es|
    ensures |EncodeEntries(es[k..])| == 4 + |es[k].key| + 4 + |es[k].value| + |EncodeEntries(es[k + 1..])|
  {
    assert es[k..][0] == es[k] && es[k..][1..] == es[k + 1..];
  }

  lemma {:induction false} EntriesEnd(i: Image, k: nat)
    requires k <= |i.entries|
    ensures EntryStart(i, |i.entries|) == EntryStart(i, k) + |EncodeEntries(i.entries[k..])|
    decreases |i.entries| - k
  {
    if k < |i.entries| {
      EntriesEnd(i, k + 1);
      EntriesDrop(i.entries, k);
    }
  }

  lemma EntriesLie(i: Image, k: nat)
    requires k <= |i.entries|
    ensures EntryStart(i, 0) <= EntryStart(i, k) <= EntryStart(i, |i.entries|)
    ensures EntryStart(i, |i.entries|) == EntryStart(i, k) + |EncodeEntries(i.entries[k..])|
  {
    EntriesEnd(i, k);
    StartsGrow(i, k);
  }

  lemma {:induction false} StartsGrow(i: Image, k: nat)
    requires k <= |i.entries|
    ensures EntryStart(i, 0) <= EntryStart(i, k)
  {
    if k > 0 {
      StartsGrow(i, k - 1);
    }
  }

  lemma EntryIff(data: bytes, e: Entry, at: nat, end: nat)
    requires Framed([e]) && at + 4 + |e.key| + 4 + |e.value| == end <= |data|
    ensures data[at..end] == EncodeEntry(e) <==> EntryIn(data, e, at, end)
  {
    assert [e][0] == e;
    var middle := at + 4 + |e.key|;
    Cut(data, at, middle, end, Field(e.key), Field(e.value));
    FieldIff(data, at, e.key, middle);
    FieldIff(data, middle, e.value, end);
  }

  /** The entries from `k` on are encoded exactly when each stands in its place. */
  lemma {:induction false} EntriesIff(data: bytes, i: Image, k: nat)
    requires Framed(i.entries) && k <= |i.entries| && EntryStart(i, |i.entries|) <= |data|
    ensures EntryStart(i, k) <= EntryStart(i, |i.entries|)
    ensures data[EntryStart(i, k)..EntryStart(i, |i.entries|)] == EncodeEntries(i.entries[k..])
        <==> EntriesFrom(data, i, k)
    decreases |i.entries| - k
  {
    EntriesLie(i, k);
    if k < |i.entries| {
      EntriesLie(i, k + 1);
      EntriesIff(data, i, k + 1);
      var e, rest := i.entries[k], i.entries[k + 1..];
      assert i.entries[k..][0] == e && i.entries[k..][1..] == rest;
      assert Framed([e]);
      EntryIff(data, e, EntryStart(i, k), EntryStart(i, k + 1));
      Cut(data, EntryStart(i, k), EntryStart(i, k + 1), EntryStart(i, |i.entries|), EncodeEntry(e),
          EncodeEntries(rest));
    } else {
      assert i.entries[k..] == [];
    }
  }

  lemma MarkIff(data: bytes)
    requires |data| >= 10
    ensures data[..10] == MAGIC + [0, VERSION] <==> MarkedAt(data)
  {
    var mark := MAGIC + [0, VERSION];
    assert mark[8] == 0 && mark[9] == 1;
    assert MarkedAt(data) ==> forall k :: 0 <= k < 10 ==> data[..10][k] == mark[k];
    if data[..10] == mark {
      assert forall k :: 0 <= k < 10 ==> data[k] == data[..10][k];
    }
  }

  /** The binding and what follows it. */
  predicate BindingAt(data: bytes, n: bytes, c: bytes)
  {
    FieldAt(data, 10, n, 14 + |n|) && FieldAt(data, 14 + |n|, c, 18 + |n| + |c|)
  }

  lemma BindingThen(body: bytes, n: bytes, c: bytes, rest: bytes)
    requires |n| < U32_LIMIT && |c| < U32_LIMIT && 18 + |n| + |c| + |rest| == |body|
    ensures body[10..|body|] == Named(n, c, rest) <==>
      BindingAt(body, n, c) && body[18 + |n| + |c|..|body|] == rest
  {
    FieldThen(body, 10, n, Field(c) + rest, |body|);
    FieldThen(body, 14 + |n|, c, rest, |body|);
  }

  lemma HeadIff(body: bytes, n: bytes, c: bytes, count: nat, tail: bytes)
    requires |n| < U32_LIMIT && |c| < U32_LIMIT && count < U32_LIMIT
    requires 22 + |n| + |c| + |tail| == |body|
    ensures body == Head(n, c, count, tail) <==> HeadAt(body, n, c, count) && body[22 + |n| + |c|..|body|] == tail
  {
    MarkIff(body);
    PrefixThen(body, MAGIC, VERSION, Named(n, c, U32(count) + tail), |body|);
    assert body[..|body|] == body;
    BindingThen(body, n, c, U32(count) + tail);
    WordThen(body, 18 + |n| + |c|, count, tail, |body|);
  }

  lemma AllEntriesIff(body: bytes, i: Image)
    requires Framed(i.entries) && |body| == EntryStart(i, |i.entries|)
    ensures 22 + |i.engineName| + |i.connectorClass| + |EncodeEntries(i.entries)| == |body|
    ensures body[22 + |i.engineName| + |i.connectorClass|..|body|] == EncodeEntries(i.entries) <==>
      EntriesFrom(body, i, 0)
  {
    EntriesLie(i, 0);
    assert i.entries[0..] == i.entries;
    EntriesIff(body, i, 0);
  }

  lemma BodyIff(body: bytes, i: Image)
    requires Framed(i.entries) && |i.entries| < U32_LIMIT && |i.engineName| < U32_LIMIT
    requires |i.connectorClass| < U32_LIMIT && |body| == EntryStart(i, |i.entries|)
    ensures body == Body(i) <==> ImageAt(body, i)
  {
    AllEntriesIff(body, i);
    HeadIff(body, i.engineName, i.connectorClass, |i.entries|, EncodeEntries(i.entries));
  }

  lemma SummedIff(rules: Rules, data: bytes, body: bytes, end: nat)
    requires ProperRules(rules) && |body| == end && end + 4 == |data|
    ensures data == body + U32(rules.crc(body)) <==> data[..end] == body && WordAt(data, end) == rules.crc(data[..end])
  {
    WordIff(data, end, rules.crc(body));
    Cut(data, 0, end, end + 4, body, U32(rules.crc(body)));
    assert data[0..end] == data[..end] && data[0..end + 4] == data;
  }

  lemma StoredLength(rules: Rules, i: Image)
    ensures EntryStart(i, |i.entries|) == |Body(i)| && |EncodeCheckpoint(rules, i)| == |Body(i)| + 4
  {
    EntriesLie(i, 0);
    assert i.entries[0..] == i.entries;
    BodyLong(rules, i);
  }

  lemma WithinIff(rules: Rules, i: Image)
    ensures Legal(rules, i) <==> Within(rules, i) && |EncodeCheckpoint(rules, i)| <= 64 * 1024 * 1024
  {
  }

  lemma LaidIff(rules: Rules, data: bytes, i: Image)
    requires ProperRules(rules) && Within(rules, i)
    ensures Laid(rules, data, i) <==> data == EncodeCheckpoint(rules, i)
  {
    StoredLength(rules, i);
    var end := EntryStart(i, |i.entries|);
    if end + 4 == |data| {
      BodyIff(data[..end], i);
      SummedIff(rules, data, Body(i), end);
    }
  }

  /** A checkpoint of an image is what the format says, byte by byte. */
  lemma StoredIff(rules: Rules, data: bytes, i: Image)
    requires ProperRules(rules)
    ensures Stored(rules, data, i) <==> Legal(rules, i) && data == EncodeCheckpoint(rules, i)
  {
    WithinIff(rules, i);
    if Within(rules, i) {
      LaidIff(rules, data, i);
    }
  }

  /** Reads one entry, refusing what no legal entry at this place could have written. */
  method ReadEntry(input: Input, previous: Option<bytes>) returns (ok: bool, key: bytes, ghost value: bytes)
    requires input.Valid() && |input.data| <= MAX_USIZE
    modifies input
    ensures input.Valid()
    ensures ok ==>
      && LegalEntry(Entry(key, value))
      && Follows(previous, key)
      && old(input.Rest()) == EncodeEntry(Entry(key, value)) + input.Rest()
    ensures !ok ==> forall e, a :: LegalEntry(e) && Follows(previous, e.key) ==> old(input.Rest()) != EncodeEntry(e) + a
  {
    ghost var rest := input.Rest();
    assert forall e, a :: EncodeEntry(e) + a == Field(e.key) + (Field(e.value) + a);
    var read := input.ReadField(MAX_ENTRY_BYTES);
    if read.None? {
      return false, [], [];
    }
    forall e, a | LegalEntry(e) && rest == EncodeEntry(e) + a
      ensures e.key == read.value && input.Rest() == Field(e.value) + a
    {
      FieldPrefix(e.key, read.value, Field(e.value) + a, input.Rest());
    }
    key := read.value;
    if key == [] || (previous.Some? && !LexLess(previous.value, key)) {
      return false, key, [];
    }
    var stored := input.ReadSignedField(MAX_ENTRY_BYTES);
    if stored.None? {
      return false, key, [];
    }
    assert rest == EncodeEntry(Entry(key, stored.value)) + input.Rest();
    return true, key, stored.value;
  }

  lemma EntriesSplit(es: seq<Entry>, k: nat)
    requires k < |es|
    ensures EncodeEntries(es) == EncodeEntries(es[..k]) + (EncodeEntry(es[k]) + EncodeEntries(es[k + 1..]))
  {
    assert es == es[..k] + es[k..];
    EntriesConcat(es[..k], es[k..]);
    assert es[k..][1..] == es[k + 1..];
  }

  /** What must follow after `k` entries have been read. */
  lemma EntryAt(es: seq<Entry>, k: nat, read: seq<Entry>, all: bytes, rest: bytes, a: bytes)
    requires LegalEntries(es) && k < |es| && |read| == k && LegalEntries(read)
    requires all == EncodeEntries(es) + a && all == EncodeEntries(read) + rest
    ensures es[..k] == read && rest == EncodeEntry(es[k]) + (EncodeEntries(es[k + 1..]) + a)
    ensures LegalEntry(es[k]) && Follows(if k == 0 then None else Some(read[k - 1].key), es[k].key)
  {
    EntriesSplit(es, k);
    Assoc(EncodeEntries(es[..k]), EncodeEntry(es[k]) + EncodeEntries(es[k + 1..]), a);
    Assoc(EncodeEntry(es[k]), EncodeEntries(es[k + 1..]), a);
    EntriesPrefix(es[..k], read, EncodeEntry(es[k]) + (EncodeEntries(es[k + 1..]) + a), rest);
    assert k > 0 ==> es[..k][k - 1] == es[k - 1];
  }

  method ReadEntries(input: Input, count: nat) returns (ok: bool, ghost es: seq<Entry>)
    requires input.Valid() && |input.data| <= MAX_USIZE
    modifies input
    ensures input.Valid()
    ensures ok ==> LegalEntries(es) && |es| == count && old(input.Rest()) == EncodeEntries(es) + input.Rest()
    ensures !ok ==> forall fs, a :: LegalEntries(fs) && |fs| == count ==> old(input.Rest()) != EncodeEntries(fs) + a
  {
    ghost var all := input.Rest();
    es := [];
    var previous: Option<bytes> := None;
    for k := 0 to count
      invariant input.Valid() && |es| == k && LegalEntries(es)
      invariant all == EncodeEntries(es) + input.Rest()
      invariant previous == if k == 0 then None else Some(es[k - 1].key)
    {
      ghost var rest := input.Rest();
      var read, key;
      ghost var value;
      read, key, value := ReadEntry(input, previous);
      if !read {
        forall fs, a | LegalEntries(fs) && |fs| == count
          ensures all != EncodeEntries(fs) + a
        {
          if all == EncodeEntries(fs) + a {
            EntryAt(fs, k, es, all, rest, a);
          }
        }
        return false, [];
      }
      EntriesConcat(es, [Entry(key, value)]);
      EntriesOne(Entry(key, value));
      Assoc(EncodeEntries(es), EncodeEntry(Entry(key, value)), input.Rest());
      es := es + [Entry(key, value)];
      previous := Some(key);
    }
    ok := true;
  }

  lemma NamedPrefix(n: bytes, c: bytes, a: bytes, n': bytes, c': bytes, a': bytes)
    requires |n| < U32_LIMIT && |c| < U32_LIMIT && |n'| < U32_LIMIT && |c'| < U32_LIMIT
    requires Named(n, c, a) == Named(n', c', a')
    ensures n == n' && c == c' && a == a'
  {
    FieldPrefix(n, n', Field(c) + a, Field(c') + a');
    FieldPrefix(c, c', a, a');
  }

  lemma HeadPrefix(n: bytes, c: bytes, m: nat, a: bytes, n': bytes, c': bytes, m': nat, a': bytes)
    requires |n| < U32_LIMIT && |c| < U32_LIMIT && |n'| < U32_LIMIT && |c'| < U32_LIMIT && m < U32_LIMIT
    requires m' < U32_LIMIT
    requires Head(n, c, m, a) == Head(n', c', m', a')
    ensures n == n' && c == c' && m == m' && a == a'
  {
    var x, y := Named(n, c, U32(m) + a), Named(n', c', U32(m') + a');
    SplitEqual(MAGIC, U16(VERSION) + x, MAGIC, U16(VERSION) + y);
    SplitEqual(U16(VERSION), x, U16(VERSION), y);
    NamedPrefix(n, c, U32(m) + a, n', c', U32(m') + a');
    U32Prefix(m, m', a, a');
  }

  /** An image has one encoding, and an encoding one image. */
  lemma EncodingUnique(rules: Rules, i: Image, j: Image)
    requires Legal(rules, i) && Legal(rules, j) && EncodeCheckpoint(rules, i) == EncodeCheckpoint(rules, j)
    ensures i == j
  {
    SplitEqual(Body(i), U32(rules.crc(Body(i))), Body(j), U32(rules.crc(Body(j))));
    HeadPrefix(i.engineName, i.connectorClass, |i.entries|, EncodeEntries(i.entries), j.engineName, j.connectorClass,
               |j.entries|, EncodeEntries(j.entries));
    assert EncodeEntries(i.entries) + [] == EncodeEntries(i.entries)
        && EncodeEntries(j.entries) + [] == EncodeEntries(j.entries);
    EntriesPrefix(i.entries, j.entries, [], []);
  }

  /** Reads the fixed prefix of a checkpoint or of a delivery. */
  method ReadPrefix(input: Input, magic: bytes, version: nat) returns (ok: bool)
    requires input.Valid() && |input.data| <= MAX_USIZE && |magic| == 8 && version < 0x1_0000
    modifies input
    ensures input.Valid()
    ensures ok ==> old(input.Rest()) == magic + (U16(version) + input.Rest())
    ensures !ok ==> forall a :: old(input.Rest()) != magic + (U16(version) + a)
  {
    ghost var rest := input.Rest();
    var taken := input.Take(8);
    if taken.None? {
      assert forall a :: |magic + (U16(version) + a)| >= 8;
      return false;
    }
    forall a | rest == magic + (U16(version) + a)
      ensures taken.value == magic && input.Rest() == U16(version) + a
    {
      SplitEqual(taken.value, input.Rest(), magic, U16(version) + a);
    }
    if taken.value != magic {
      return false;
    }
    ghost var tail := input.Rest();
    var read := input.ReadU16();
    if read.None? {
      assert forall a :: |U16(version) + a| >= 2;
      return false;
    }
    forall a | tail == U16(version) + a
      ensures read.value == version
    {
      Widths();
      SplitEqual(U16(version), a, U16(read.value), input.Rest());
      DecodeEncode(version, 2);
      DecodeEncode(read.value, 2);
    }
    ok := read.value == version;
  }

  /** Reads the binding of a checkpoint. */
  method ReadBinding(rules: Rules, input: Input) returns (ok: bool, engineName: bytes, connectorClass: bytes)
    requires input.Valid() && |input.data| <= MAX_USIZE
    modifies input
    ensures input.Valid()
    ensures ok ==>
      && LegalBinding(rules, engineName)
      && LegalBinding(rules, connectorClass)
      && old(input.Rest()) == Named(engineName, connectorClass, input.Rest())
    ensures !ok ==>
      forall n, c, a :: LegalBinding(rules, n) && LegalBinding(rules, c) ==> old(input.Rest()) != Named(n, c, a)
  {
    ghost var rest := input.Rest();
    engineName, connectorClass := [], [];
    var name := input.ReadField(MAX_BINDING_BYTES);
    if name.None? {
      return false, [], [];
    }
    forall n, c, a | LegalBinding(rules, n) && rest == Named(n, c, a)
      ensures n == name.value && input.Rest() == Field(c) + a
    {
      FieldPrefix(n, name.value, Field(c) + a, input.Rest());
    }
    if !rules.utf8(name.value) {
      return false, [], [];
    }
    ghost var tail := input.Rest();
    var class_ := input.ReadField(MAX_BINDING_BYTES);
    if class_.None? {
      return false, [], [];
    }
    forall c, a | LegalBinding(rules, c) && tail == Field(c) + a
      ensures c == class_.value
    {
      FieldPrefix(c, class_.value, a, input.Rest());
    }
    if !rules.utf8(class_.value) || rules.blank(name.value) || rules.blank(class_.value) {
      return false, [], [];
    }
    ok, engineName, connectorClass := true, name.value, class_.value;
  }

  /** Whether `data` ends with the checksum of everything before it. */
  method SplitChecksum(rules: Rules, data: bytes) returns (ok: bool, body: bytes)
    requires ProperRules(rules) && |data| >= CHECKSUM_BYTES
    ensures ok ==> data == body + U32(rules.crc(body))
    ensures !ok ==> forall b :: data != b + U32(rules.crc(b))
  {
    var end := |data| - CHECKSUM_BYTES;
    body := data[..end];
    var stored := data[end..];
    EncodeDecode(stored);
    Widths();
    DecodeEncode(rules.crc(body), 4);
    assert data == body + stored;
    ok := rules.crc(body) == Decode(stored);
    if !ok {
      forall b
        ensures data != b + U32(rules.crc(b))
      {
        if data == b + U32(rules.crc(b)) {
          SplitEqual(body, stored, b, U32(rules.crc(b)));
        }
      }
    }
  }

  lemma BodyLong(rules: Rules, i: Image)
    ensures |Body(i)| == 8 + 2 + 4 + |i.engineName| + 4 + |i.connectorClass| + 4 + |EncodeEntries(i.entries)|
    ensures |EncodeCheckpoint(rules, i)| == |Body(i)| + 4
  {
  }

  /** Reads the body of a checkpoint to its end. */
  method ReadBody(rules: Rules, body: bytes) returns (ok: bool, ghost image: Image)
    requires |body| <= MAX_USIZE
    ensures ok ==> LegalBinding(rules, image.engineName) && LegalBinding(rules, image.connectorClass)
    ensures ok ==> |image.entries| <= MAX_ENTRIES && LegalEntries(image.entries) && body == Body(image)
    ensures !ok ==> forall i :: Legal(rules, i) ==> body != Body(i)
  {
    image := Image([], [], []);
    var input := new Input(body);
    var prefixed := ReadPrefix(input, MAGIC, VERSION);
    if !prefixed {
      return false, image;
    }
    forall i | Legal(rules, i) && body == Body(i)
      ensures input.Rest() == Named(i.engineName, i.connectorClass, U32(|i.entries|) + EncodeEntries(i.entries))
    {
      SplitEqual(MAGIC, U16(VERSION) + input.Rest(), MAGIC,
                 U16(VERSION) + Named(i.engineName, i.connectorClass, U32(|i.entries|) + EncodeEntries(i.entries)));
      SplitEqual(U16(VERSION), input.Rest(), U16(VERSION),
                 Named(i.engineName, i.connectorClass, U32(|i.entries|) + EncodeEntries(i.entries)));
    }
    ghost var bound := input.Rest();
    var named, name, class_ := ReadBinding(rules, input);
    if !named {
      return false, image;
    }
    ghost var counted := input.Rest();
    forall i | Legal(rules, i) && body == Body(i)
      ensures i.engineName == name && i.connectorClass == class_
      ensures counted == U32(|i.entries|) + EncodeEntries(i.entries)
    {
      NamedPrefix(i.engineName, i.connectorClass, U32(|i.entries|) + EncodeEntries(i.entries), name, class_, counted);
    }
    var listed;
    listed, image := ReadList(rules, input, name, class_);
    if listed {
      assert body == Body(image);
    } else {
      forall i | Legal(rules, i)
        ensures body != Body(i)
      {
        assert counted != U32(|i.entries|) + EncodeEntries(i.entries);
      }
    }
    ok := listed;
  }

  /** Reads the entry count, the entries, and nothing more. */
  method ReadList(rules: Rules, input: Input, engineName: bytes, connectorClass: bytes)
    returns (ok: bool, ghost image: Image)
    requires input.Valid() && |input.data| <= MAX_USIZE
    modifies input
    ensures ok ==> image.engineName == engineName && image.connectorClass == connectorClass
    ensures ok ==>
      && |image.entries| <= MAX_ENTRIES
      && LegalEntries(image.entries)
      && old(input.Rest()) == U32(|image.entries|) + EncodeEntries(image.entries)
    ensures !ok ==>
      forall es :: |es| <= MAX_ENTRIES && LegalEntries(es) ==> old(input.Rest()) != U32(|es|) + EncodeEntries(es)
  {
    ghost var counted := input.Rest();
    image := Image(engineName, connectorClass, []);
    var count := input.ReadU32();
    if count.None? {
      return false, image;
    }
    ghost var rest := input.Rest();
    forall es | |es| <= MAX_ENTRIES && counted == U32(|es|) + EncodeEntries(es)
      ensures |es| == count.value && rest == EncodeEntries(es)
    {
      U32Prefix(|es|, count.value, EncodeEntries(es), rest);
    }
    if count.value > MAX_ENTRIES {
      return false, image;
    }
    var read;
    ghost var es;
    read, es := ReadEntries(input, count.value);
    if !read {
      forall fs | |fs| <= MAX_ENTRIES && LegalEntries(fs)
        ensures counted != U32(|fs|) + EncodeEntries(fs)
      {
        assert EncodeEntries(fs) + [] == EncodeEntries(fs);
      }
      return false, image;
    }
    ok := input.AtEnd();
    if ok {
      image := Image(engineName, connectorClass, es);
      assert rest == EncodeEntries(es);
    } else {
      forall fs | |fs| <= MAX_ENTRIES && LegalEntries(fs)
        ensures counted != U32(|fs|) + EncodeEntries(fs)
      {
        if counted == U32(|fs|) + EncodeEntries(fs) {
          assert EncodeEntries(fs) + [] == EncodeEntries(fs);
          EntriesPrefix(fs, es, [], input.Rest());
        }
      }
    }
  }

  /** Accepts exactly the encodings of legal images. */
  method Validate(rules: Rules, data: bytes) returns (ok: bool, ghost image: Image)
    requires ProperRules(rules)
    ensures ok ==> Legal(rules, image) && data == EncodeCheckpoint(rules, image)
    ensures !ok ==> !IsCheckpoint(rules, data)
    ensures ok ==> Stored(rules, data, image)
    ensures !ok ==> forall i :: !Stored(rules, data, i)
  {
    forall i
      ensures Stored(rules, data, i) <==> Legal(rules, i) && data == EncodeCheckpoint(rules, i)
    {
      StoredIff(rules, data, i);
    }
    image := Image([], [], []);
    forall i | Legal(rules, i)
      ensures |EncodeCheckpoint(rules, i)| >= 8 + 2 + CHECKSUM_BYTES
    {
      BodyLong(rules, i);
    }
    if |data| > MAX_CHECKPOINT_BYTES || |data| < 8 + 2 + CHECKSUM_BYTES {
      return false, image;
    }
    var summed, body := SplitChecksum(rules, data);
    if !summed {
      return false, image;
    }
    forall i | Legal(rules, i) && data == EncodeCheckpoint(rules, i)
      ensures body == Body(i)
    {
      SplitEqual(Body(i), U32(rules.crc(Body(i))), body, U32(rules.crc(body)));
    }
    ok, image := ReadBody(rules, body);
  }

  /** Compares the binding of an accepted checkpoint, reading only its two binding fields. */
  method Matches(rules: Rules, data: bytes, ghost image: Image, engineName: bytes, connectorClass: bytes)
    returns (r: bool, ghost read: nat)
    requires Legal(rules, image) && data == EncodeCheckpoint(rules, image)
    ensures r <==> image.engineName == engineName && image.connectorClass == connectorClass
    ensures read <= |data| - CHECKSUM_BYTES - 4
  {
    BodyLong(rules, image);
    var input := new Input(data[8 + 2..]);
    ghost var tail := U32(|image.entries|) + EncodeEntries(image.entries) + U32(rules.crc(Body(image)));
    BodyTail(rules, image);
    assert input.Rest() == Field(image.engineName) + (Field(image.connectorClass) + tail);
    var name := input.ReadField(MAX_BINDING_BYTES);
    FieldPrefix(image.engineName, name.value, Field(image.connectorClass) + tail, input.Rest());
    read := 10 + input.position;
    if name.value != engineName {
      return false, read;
    }
    var class_ := input.ReadField(MAX_BINDING_BYTES);
    FieldPrefix(image.connectorClass, class_.value, tail, input.Rest());
    read := 10 + input.position;
    r := class_.value == connectorClass;
  }

  lemma BodyTail(rules: Rules, i: Image)
    ensures |EncodeCheckpoint(rules, i)| >= 10
    ensures EncodeCheckpoint(rules, i)[10..]
        == Field(i.engineName)
           + (Field(i.connectorClass) + (U32(|i.entries|) + EncodeEntries(i.entries) + U32(rules.crc(Body(i)))))
  {
    var rest := U32(|i.entries|) + EncodeEntries(i.entries);
    var sum := U32(rules.crc(Body(i)));
    var named := Named(i.engineName, i.connectorClass, rest);
    Assoc(MAGIC, U16(VERSION), named);
    Assoc(MAGIC + U16(VERSION), named, sum);
    assert EncodeCheckpoint(rules, i)[10..] == named + sum;
    Assoc(Field(i.engineName), Field(i.connectorClass) + rest, sum);
    Assoc(Field(i.connectorClass), rest, sum);
  }
}
