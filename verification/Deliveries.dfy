/** The delivery format: a candidate checkpoint and the records it covers. */
module Deliveries {
  import opened Options
  import opened Sequences
  import opened BigEndian
  import opened WireInput
  import Checkpoints

  const MAGIC: bytes := [68, 80, 68, 66, 68, 86, 48, 49]
  const VERSION: nat := 2
  const CHECKSUM_BYTES: nat := 4

  datatype Record = Record(topic: Option<bytes>, value: Option<bytes>)

  datatype Delivery = Delivery(checkpoint: bytes, records: seq<Record>)

  datatype DeliveryError = DeliveryTooLarge | Protocol

  datatype Decoded = Decoded(delivery: Delivery) | Refused(error: DeliveryError)

  function EncodeRecord(r: Record): bytes
  {
    NullableField(r.topic) + NullableField(r.value)
  }

  function EncodeRecords(rs: seq<Record>): bytes
  {
    if rs == [] then [] else EncodeRecord(rs[0]) + EncodeRecords(rs[1..])
  }

  function Content(d: Delivery): bytes
  {
    Field(d.checkpoint) + (U32(|d.records|) + EncodeRecords(d.records))
  }

  function Body(d: Delivery): bytes
  {
    MAGIC + (U16(VERSION) + Content(d))
  }

  function EncodeDelivery(rules: Rules, d: Delivery): bytes
  {
    Body(d) + U32(rules.crc(Body(d)))
  }

  ghost predicate LegalRecord(rules: Rules, r: Record)
  {
    Representable(r.topic) && Representable(r.value) && (r.topic.Some? ==> rules.utf8(r.topic.value))
  }

  ghost predicate LegalRecords(rules: Rules, rs: seq<Record>)
  {
    forall k :: 0 <= k < |rs| ==> LegalRecord(rules, rs[k])
  }

  /** The deliveries that have an encoding within `limit` bytes. */
  ghost predicate LegalDelivery(rules: Rules, d: Delivery, limit: nat)
  {
    && Checkpoints.IsCheckpoint(rules, d.checkpoint)
    && 0 < |d.records| < U32_LIMIT && LegalRecords(rules, d.records)
    && |EncodeDelivery(rules, d)| <= limit
  }

  lemma RecordPrefix(rules: Rules, r: Record, s: Record, a: bytes, b: bytes)
    requires LegalRecord(rules, r) && LegalRecord(rules, s) && EncodeRecord(r) + a == EncodeRecord(s) + b
    ensures r == s && a == b
  {
    Assoc(NullableField(r.topic), NullableField(r.value), a);
    Assoc(NullableField(s.topic), NullableField(s.value), b);
    NullablePrefix(r.topic, s.topic, NullableField(r.value) + a, NullableField(s.value) + b);
    NullablePrefix(r.value, s.value, a, b);
  }

  lemma {:induction false} RecordsPrefix(rules: Rules, rs: seq<Record>, ss: seq<Record>, a: bytes, b: bytes)
    requires LegalRecords(rules, rs) && LegalRecords(rules, ss) && |rs| == |ss|
    requires EncodeRecords(rs) + a == EncodeRecords(ss) + b
    ensures rs == ss && a == b
  {
    if rs == [] {
      assert EncodeRecords(rs) + a == a && EncodeRecords(ss) + b == b;
    } else {
      Assoc(EncodeRecord(rs[0]), EncodeRecords(rs[1..]), a);
      Assoc(EncodeRecord(ss[0]), EncodeRecords(ss[1..]), b);
      RecordPrefix(rules, rs[0], ss[0], EncodeRecords(rs[1..]) + a, EncodeRecords(ss[1..]) + b);
      RecordsPrefix(rules, rs[1..], ss[1..], a, b);
      assert rs == [rs[0]] + rs[1..] && ss == [ss[0]] + ss[1..];
    }
  }

  lemma {:induction false} RecordsConcat(rs: seq<Record>, ss: seq<Record>)
    ensures EncodeRecords(rs + ss) == EncodeRecords(rs) + EncodeRecords(ss)
  {
    if rs == [] {
      assert rs + ss == ss;
    } else {
      assert (rs + ss)[1..] == rs[1..] + ss;
      RecordsConcat(rs[1..], ss);
    }
  }

  lemma RecordsOne(r: Record)
    ensures EncodeRecords([r]) == EncodeRecord(r)
  {
    assert [r][1..] == [];
    assert EncodeRecords([r]) == EncodeRecord(r) + EncodeRecords([]);
  }

  lemma RecordsSplit(rs: seq<Record>, k: nat)
    requires k < |rs|
    ensures EncodeRecords(rs) == EncodeRecords(rs[..k]) + (EncodeRecord(rs[k]) + EncodeRecords(rs[k + 1..]))
  {
    assert rs == rs[..k] + rs[k..];
    RecordsConcat(rs[..k], rs[k..]);
    assert rs[k..][1..] == rs[k + 1..];
  }

  /** What must follow after `k` records have been read. */
  lemma RecordAt(rules: Rules, rs: seq<Record>, k: nat, read: seq<Record>, all: bytes, rest: bytes, a: bytes)
    requires LegalRecords(rules, rs) && k < |rs| && |read| == k && LegalRecords(rules, read)
    requires all == EncodeRecords(rs) + a && all == EncodeRecords(read) + rest
    ensures rest == EncodeRecord(rs[k]) + (EncodeRecords(rs[k + 1..]) + a) && LegalRecord(rules, rs[k])
  {
    RecordsSplit(rs, k);
    Assoc(EncodeRecords(rs[..k]), EncodeRecord(rs[k]) + EncodeRecords(rs[k + 1..]), a);
    Assoc(EncodeRecord(rs[k]), EncodeRecords(rs[k + 1..]), a);
    RecordsPrefix(rules, rs[..k], read, EncodeRecord(rs[k]) + (EncodeRecords(rs[k + 1..]) + a), rest);
  }

  // ---- The format, byte by byte --------------------------------------------

  function Width(field: Option<bytes>): nat
  {
    4 + if field.None? then 0 else |field.value|
  }

  function RecordWidth(r: Record): nat
  {
    Width(r.topic) + Width(r.value)
  }

  lemma RecordLength(r: Record)
    ensures |EncodeRecord(r)| == RecordWidth(r)
  {
  }

  /** Where record `k` starts: after the checkpoint and the count, each record where the last ended. */
  function RecordStart(d: Delivery, k: nat): nat
    requires k <= |d.records|
  {
    if k == 0 then 8 + 2 + 4 + |d.checkpoint| + 4
    else RecordStart(d, k - 1) + RecordWidth(d.records[k - 1])
  }

  /** Between `at` and `end` stand a topic and, after it, a value. */
  predicate RecordIn(data: bytes, r: Record, at: nat, end: nat)
  {
    NullableAt(data, at, r.topic, at + Width(r.topic)) && NullableAt(data, at + Width(r.topic), r.value, end)
  }

  ghost predicate RecordsFrom(data: bytes, d: Delivery, k: nat)
  {
    forall j :: k <= j < |d.records| ==> RecordIn(data, d.records[j], RecordStart(d, j), RecordStart(d, j + 1))
  }

  /** The ASCII characters DPDBDV01 and the version 2 in two bytes. */
  predicate MarkedAt(data: bytes)
  {
    && |data| >= 10
    && data[0] == 68 && data[1] == 80 && data[2] == 68 && data[3] == 66 && data[4] == 68 && data[5] == 86
    && data[6] == 48 && data[7] == 49
    && data[8] == 0 && data[9] == 2
  }

  /** Magic and version, the checkpoint and the number of records stand one after the other. */
  predicate HeadAt(data: bytes, checkpoint: bytes, count: nat)
  {
    var end := 14 + |checkpoint|;
    && MarkedAt(data) && FieldAt(data, 10, checkpoint, end)
    && end + 4 <= |data| && WordAt(data, end) == count
  }

  ghost predicate DeliveryAt(data: bytes, d: Delivery)
  {
    HeadAt(data, d.checkpoint, |d.records|) && RecordsFrom(data, d, 0)
  }

  /** `data` is this delivery: every byte in its place, at least one record, text topics and a
      checkpoint of some image. The last four bytes are the checksum of all that is before them. */
  ghost predicate Stored(rules: Rules, data: bytes, d: Delivery)
  {
    var end := RecordStart(d, |d.records|);
    && |data| == end + 4 && DeliveryAt(data[..end], d) && WordAt(data, end) == rules.crc(data[..end])
    && |d.records| > 0
    && (forall k :: 0 <= k < |d.records| && d.records[k].topic.Some? ==> rules.utf8(d.records[k].topic.value))
    && exists image :: Checkpoints.Stored(rules, d.checkpoint, image)
  }

  lemma RecordsDrop(rs: seq<Record>, k: nat)
    requires k < |rs|
    ensures |EncodeRecords(rs[k..])| == RecordWidth(rs[k]) + |EncodeRecords(rs[k + 1..])|
  {
    assert rs[k..][0] == rs[k] && rs[k..][1..] == rs[k + 1..];
    RecordLength(rs[k]);
  }

  lemma {:induction false} RecordsEnd(d: Delivery, k: nat)
    requires k <= |d.records|
    ensures RecordStart(d, |d.records|) == RecordStart(d, k) + |EncodeRecords(d.records[k..])|
    decreases |d.records| - k
  {
    if k < |d.records| {
      RecordsEnd(d, k + 1);
      RecordsDrop(d.records, k);
    }
  }

  lemma RecordsLie(d: Delivery, k: nat)
    requires k <= |d.records|
    ensures RecordStart(d, 0) <= RecordStart(d, k) <= RecordStart(d, |d.records|)
    ensures RecordStart(d, |d.records|) == RecordStart(d, k) + |EncodeRecords(d.records[k..])|
  {
    RecordsEnd(d, k);
    StartsGrow(d, k);
  }

  lemma {:induction false} StartsGrow(d: Delivery, k: nat)
    requires k <= |d.records|
    ensures RecordStart(d, 0) <= RecordStart(d, k)
  {
    if k > 0 {
      StartsGrow(d, k - 1);
    }
  }

  lemma RecordIff(data: bytes, r: Record, at: nat, end: nat)
    requires Representable(r.topic) && Representable(r.value)
    requires at + RecordWidth(r) == end <= |data|
    ensures data[at..end] == EncodeRecord(r) <==> RecordIn(data, r, at, end)
  {
    var middle := at + Width(r.topic);
    Cut(data, at, middle, end, NullableField(r.topic), NullableField(r.value));
    NullableIff(data, at, r.topic, middle);
    NullableIff(data, middle, r.value, end);
  }

  ghost predicate Fits(rs: seq<Record>)
  {
    forall k :: 0 <= k < |rs| ==> Representable(rs[k].topic) && Representable(rs[k].value)
  }

  lemma RecordsStep(data: bytes, rs: seq<Record>, at: nat, middle: nat, end: nat)
    requires rs != [] && Representable(rs[0].topic) && Representable(rs[0].value)
    requires at + RecordWidth(rs[0]) == middle <= end <= |data|
    ensures data[at..end] == EncodeRecords(rs)
        <==> RecordIn(data, rs[0], at, middle) && data[middle..end] == EncodeRecords(rs[1..])
  {
    RecordIff(data, rs[0], at, middle);
    RecordLength(rs[0]);
    Cut(data, at, middle, end, EncodeRecord(rs[0]), EncodeRecords(rs[1..]));
  }

  /** The records from `k` on are encoded exactly when each stands in its place. */
  lemma {:induction false} RecordsIff(data: bytes, d: Delivery, k: nat)
    requires Fits(d.records) && k <= |d.records| && RecordStart(d, |d.records|) <= |data|
    ensures RecordStart(d, k) <= RecordStart(d, |d.records|)
    ensures data[RecordStart(d, k)..RecordStart(d, |d.records|)] == EncodeRecords(d.records[k..])
        <==> RecordsFrom(data, d, k)
    decreases |d.records| - k
  {
    RecordsLie(d, k);
    if k < |d.records| {
      RecordsLie(d, k + 1);
      RecordsIff(data, d, k + 1);
      assert d.records[k..][0] == d.records[k] && d.records[k..][1..] == d.records[k + 1..];
      RecordsStep(data, d.records[k..], RecordStart(d, k), RecordStart(d, k + 1), RecordStart(d, |d.records|));
    } else {
      assert d.records[k..] == [];
    }
  }

  lemma MarkIff(data: bytes)
    requires |data| >= 10
    ensures data[..10] == MAGIC + [0, VERSION] <==> MarkedAt(data)
  {
    var mark := MAGIC + [0, VERSION];
    assert mark[8] == 0 && mark[9] == 2;
    assert MarkedAt(data) ==> forall k :: 0 <= k < 10 ==> data[..10][k] == mark[k];
    if data[..10] == mark {
      assert forall k :: 0 <= k < 10 ==> data[k] == data[..10][k];
    }
  }

  lemma HeadIff(body: bytes, checkpoint: bytes, count: nat, tail: bytes)
    requires |checkpoint| < U32_LIMIT && count < U32_LIMIT && 18 + |checkpoint| + |tail| == |body|
    ensures body == MAGIC + (U16(VERSION) + (Field(checkpoint) + (U32(count) + tail))) <==>
      HeadAt(body, checkpoint, count) && body[18 + |checkpoint|..|body|] == tail
  {
    MarkIff(body);
    PrefixThen(body, MAGIC, VERSION, Field(checkpoint) + (U32(count) + tail), |body|);
    assert body[..|body|] == body;
    FieldThen(body, 10, checkpoint, U32(count) + tail, |body|);
    WordThen(body, 14 + |checkpoint|, count, tail, |body|);
  }

  lemma AllRecordsIff(body: bytes, d: Delivery)
    requires Fits(d.records) && |body| == RecordStart(d, |d.records|)
    ensures 18 + |d.checkpoint| + |EncodeRecords(d.records)| == |body|
    ensures body[18 + |d.checkpoint|..|body|] == EncodeRecords(d.records) <==> RecordsFrom(body, d, 0)
  {
    RecordsLie(d, 0);
    assert d.records[0..] == d.records;
    RecordsIff(body, d, 0);
  }

  lemma BodyIff(body: bytes, d: Delivery)
    requires Fits(d.records) && |d.records| < U32_LIMIT && |d.checkpoint| < U32_LIMIT
    requires |body| == RecordStart(d, |d.records|)
    ensures body == Body(d) <==> DeliveryAt(body, d)
  {
    AllRecordsIff(body, d);
    HeadIff(body, d.checkpoint, |d.records|, EncodeRecords(d.records));
  }

  lemma StoredLength(rules: Rules, d: Delivery)
    ensures RecordStart(d, |d.records|) == |Body(d)| && |EncodeDelivery(rules, d)| == |Body(d)| + 4
  {
    RecordsLie(d, 0);
    assert d.records[0..] == d.records;
    BodyLength(rules, d);
  }

  /** Fields that stand in some bytes have lengths that can be written. */
  lemma StoredFits(data: bytes, d: Delivery)
    requires DeliveryAt(data, d)
    ensures Fits(d.records) && |d.records| < U32_LIMIT
  {
    forall k | 0 <= k < |d.records|
      ensures Representable(d.records[k].topic) && Representable(d.records[k].value)
    {
      assert RecordIn(data, d.records[k], RecordStart(d, k), RecordStart(d, k + 1));
    }
  }

  lemma CheckpointIff(rules: Rules, checkpoint: bytes)
    requires ProperRules(rules)
    ensures (exists image :: Checkpoints.Stored(rules, checkpoint, image)) <==>
      Checkpoints.IsCheckpoint(rules, checkpoint)
    ensures Checkpoints.IsCheckpoint(rules, checkpoint) ==> |checkpoint| < U32_LIMIT
  {
    forall image
      ensures Checkpoints.Stored(rules, checkpoint, image)
          <==> Checkpoints.Legal(rules, image) && checkpoint == Checkpoints.EncodeCheckpoint(rules, image)
    {
      Checkpoints.StoredIff(rules, checkpoint, image);
    }
  }

  lemma BytesIff(rules: Rules, data: bytes, d: Delivery)
    requires ProperRules(rules) && Fits(d.records) && |d.records| < U32_LIMIT && |d.checkpoint| < U32_LIMIT
    requires |data| == RecordStart(d, |d.records|) + 4
    ensures var end := RecordStart(d, |d.records|);
      data == EncodeDelivery(rules, d) <==> DeliveryAt(data[..end], d) && WordAt(data, end) == rules.crc(data[..end])
  {
    var end := RecordStart(d, |d.records|);
    StoredLength(rules, d);
    BodyIff(data[..end], d);
    Checkpoints.SummedIff(rules, data, Body(d), end);
  }

  lemma StoredEncoded(rules: Rules, data: bytes, d: Delivery)
    requires ProperRules(rules) && Stored(rules, data, d)
    ensures LegalDelivery(rules, d, |data|) && data == EncodeDelivery(rules, d)
  {
    CheckpointIff(rules, d.checkpoint);
    StoredFits(data[..RecordStart(d, |d.records|)], d);
    BytesIff(rules, data, d);
  }

  lemma EncodedStored(rules: Rules, d: Delivery, limit: nat)
    requires ProperRules(rules) && LegalDelivery(rules, d, limit)
    ensures Stored(rules, EncodeDelivery(rules, d), d)
  {
    CheckpointIff(rules, d.checkpoint);
    StoredLength(rules, d);
    BytesIff(rules, EncodeDelivery(rules, d), d);
  }

  /** A delivery is what the format says, byte by byte. */
  lemma StoredIff(rules: Rules, data: bytes, d: Delivery, limit: nat)
    requires ProperRules(rules)
    ensures Stored(rules, data, d) && |data| <= limit <==>
      LegalDelivery(rules, d, limit) && data == EncodeDelivery(rules, d)
  {
    if Stored(rules, data, d) {
      StoredEncoded(rules, data, d);
    }
    if LegalDelivery(rules, d, limit) {
      EncodedStored(rules, d, limit);
    }
  }

  method ReadRecord(rules: Rules, input: Input) returns (ok: bool, record: Record)
    requires input.Valid() && |input.data| <= MAX_USIZE
    modifies input
    ensures input.Valid()
    ensures ok ==> LegalRecord(rules, record) && old(input.Rest()) == EncodeRecord(record) + input.Rest()
    ensures !ok ==> forall r, a :: LegalRecord(rules, r) ==> old(input.Rest()) != EncodeRecord(r) + a
  {
    ghost var rest := input.Rest();
    record := Record(None, None);
    assert forall r, a :: EncodeRecord(r) + a == NullableField(r.topic) + (NullableField(r.value) + a);
    var topic := input.ReadNullable();
    if topic.None? {
      return false, record;
    }
    forall r, a | LegalRecord(rules, r) && rest == EncodeRecord(r) + a
      ensures r.topic == topic.value && input.Rest() == NullableField(r.value) + a
    {
      NullablePrefix(r.topic, topic.value, NullableField(r.value) + a, input.Rest());
    }
    if topic.value.Some? && !rules.utf8(topic.value.value) {
      return false, record;
    }
    var value := input.ReadNullable();
    if value.None? {
      return false, record;
    }
    ok, record := true, Record(topic.value, value.value);
    assert rest == EncodeRecord(record) + input.Rest();
  }

  method ReadRecords(rules: Rules, input: Input, count: nat) returns (ok: bool, records: seq<Record>)
    requires input.Valid() && |input.data| <= MAX_USIZE
    modifies input
    ensures input.Valid()
    ensures ok ==>
      LegalRecords(rules, records) && |records| == count && old(input.Rest()) == EncodeRecords(records) + input.Rest()
    ensures !ok ==>
      forall rs, a :: LegalRecords(rules, rs) && |rs| == count ==> old(input.Rest()) != EncodeRecords(rs) + a
  {
    ghost var all := input.Rest();
    records := [];
    for k := 0 to count
      invariant input.Valid() && |records| == k && LegalRecords(rules, records)
      invariant all == EncodeRecords(records) + input.Rest()
    {
      ghost var rest := input.Rest();
      var read, record := ReadRecord(rules, input);
      if !read {
        forall rs, a | LegalRecords(rules, rs) && |rs| == count
          ensures all != EncodeRecords(rs) + a
        {
          if all == EncodeRecords(rs) + a {
            RecordAt(rules, rs, k, records, all, rest, a);
          }
        }
        return false, [];
      }
      RecordsConcat(records, [record]);
      RecordsOne(record);
      Assoc(EncodeRecords(records), EncodeRecord(record), input.Rest());
      records := records + [record];
    }
    ok := true;
  }

  /** Reads the record count, the records, and nothing more. */
  method ReadAllRecords(rules: Rules, input: Input) returns (ok: bool, records: seq<Record>)
    requires input.Valid() && |input.data| <= MAX_USIZE
    modifies input
    ensures ok ==>
      && 0 < |records| < U32_LIMIT
      && LegalRecords(rules, records)
      && old(input.Rest()) == U32(|records|) + EncodeRecords(records)
    ensures !ok ==>
      forall rs :: 0 < |rs| < U32_LIMIT && LegalRecords(rules, rs) ==>
          old(input.Rest()) != U32(|rs|) + EncodeRecords(rs)
  {
    ghost var counted := input.Rest();
    var count := input.ReadU32();
    if count.None? {
      return false, [];
    }
    ghost var rest := input.Rest();
    forall rs | 0 < |rs| < U32_LIMIT && counted == U32(|rs|) + EncodeRecords(rs)
      ensures |rs| == count.value && rest == EncodeRecords(rs) && rest == EncodeRecords(rs) + []
    {
      U32Prefix(|rs|, count.value, EncodeRecords(rs), rest);
      assert EncodeRecords(rs) + [] == EncodeRecords(rs);
    }
    ok, records := ReadRecords(rules, input, count.value);
    if !ok {
      return false, [];
    }
    if !input.AtEnd() {
      forall rs | 0 < |rs| < U32_LIMIT && LegalRecords(rules, rs)
        ensures counted != U32(|rs|) + EncodeRecords(rs)
      {
        if counted == U32(|rs|) + EncodeRecords(rs) {
          RecordsPrefix(rules, rs, records, [], input.Rest());
        }
      }
      return false, [];
    }
    assert rest == EncodeRecords(records);
    ok := records != [];
  }

  /** Reads the checkpoint and the records. */
  method ReadContent(rules: Rules, input: Input) returns (ok: bool, d: Delivery)
    requires ProperRules(rules) && input.Valid() && |input.data| <= MAX_USIZE
    modifies input
    ensures ok ==>
      && Checkpoints.IsCheckpoint(rules, d.checkpoint)
      && 0 < |d.records| < U32_LIMIT
      && LegalRecords(rules, d.records)
      && old(input.Rest()) == Content(d)
    ensures !ok ==> forall e, limit :: LegalDelivery(rules, e, limit) ==> old(input.Rest()) != Content(e)
  {
    ghost var rest := input.Rest();
    d := Delivery([], []);
    forall e, limit | LegalDelivery(rules, e, limit)
      ensures |e.checkpoint| <= Checkpoints.MAX_CHECKPOINT_BYTES
    {
    }
    var stored := input.ReadField(Checkpoints.MAX_CHECKPOINT_BYTES);
    if stored.None? {
      return false, d;
    }
    ghost var counted := input.Rest();
    forall e, limit | LegalDelivery(rules, e, limit) && rest == Content(e)
      ensures e.checkpoint == stored.value && counted == U32(|e.records|) + EncodeRecords(e.records)
    {
      FieldPrefix(e.checkpoint, stored.value, U32(|e.records|) + EncodeRecords(e.records), counted);
    }
    var accepted;
    ghost var image;
    accepted, image := Checkpoints.Validate(rules, stored.value);
    if !accepted {
      return false, d;
    }
    var records;
    ok, records := ReadAllRecords(rules, input);
    d := Delivery(stored.value, records);
  }

  lemma BodyLength(rules: Rules, d: Delivery)
    ensures |EncodeDelivery(rules, d)| == 8 + 2 + 4 + |d.checkpoint| + 4 + |EncodeRecords(d.records)| + CHECKSUM_BYTES
  {
  }

  method DecodeBody(rules: Rules, body: bytes) returns (ok: bool, d: Delivery)
    requires ProperRules(rules) && |body| <= MAX_USIZE
    ensures ok ==>
      && Checkpoints.IsCheckpoint(rules, d.checkpoint)
      && 0 < |d.records| < U32_LIMIT
      && LegalRecords(rules, d.records)
      && body == Body(d)
    ensures !ok ==> forall e, limit :: LegalDelivery(rules, e, limit) ==> body != Body(e)
  {
    var input := new Input(body);
    var prefixed := Checkpoints.ReadPrefix(input, MAGIC, VERSION);
    if !prefixed {
      return false, Delivery([], []);
    }
    forall e, limit | LegalDelivery(rules, e, limit) && body == Body(e)
      ensures input.Rest() == Content(e)
    {
      SplitEqual(MAGIC, U16(VERSION) + input.Rest(), MAGIC, U16(VERSION) + Content(e));
      SplitEqual(U16(VERSION), input.Rest(), U16(VERSION), Content(e));
    }
    ok, d := ReadContent(rules, input);
  }

  /** Decodes exactly the encodings of legal deliveries within the limit. */
  method DecodeDelivery(rules: Rules, data: bytes, limit: nat) returns (r: Decoded)
    requires ProperRules(rules) && limit <= MAX_USIZE
    ensures r.Decoded? ==> LegalDelivery(rules, r.delivery, limit) && data == EncodeDelivery(rules, r.delivery)
    ensures r.Refused? ==> forall d :: LegalDelivery(rules, d, limit) ==> data != EncodeDelivery(rules, d)
    ensures forall d :: LegalDelivery(rules, d, limit) && data == EncodeDelivery(rules, d) ==> r == Decoded(d)
    ensures r == Refused(DeliveryTooLarge) <==> |data| > limit
    ensures r.Decoded? ==> |data| <= limit && Stored(rules, data, r.delivery)
    ensures |data| <= limit ==> forall d :: Stored(rules, data, d) ==> r == Decoded(d)
  {
    forall d
      ensures Stored(rules, data, d) && |data| <= limit <==>
        LegalDelivery(rules, d, limit) && data == EncodeDelivery(rules, d)
    {
      StoredIff(rules, data, d, limit);
    }
    if |data| > limit {
      return Refused(DeliveryTooLarge);
    }
    forall d
      ensures |EncodeDelivery(rules, d)| >= 8 + 2 + CHECKSUM_BYTES
    {
      BodyLength(rules, d);
    }
    if |data| < 8 + 2 + CHECKSUM_BYTES {
      return Refused(Protocol);
    }
    var summed, body := Checkpoints.SplitChecksum(rules, data);
    if !summed {
      return Refused(Protocol);
    }
    forall d | data == EncodeDelivery(rules, d)
      ensures body == Body(d)
    {
      SplitEqual(Body(d), U32(rules.crc(Body(d))), body, U32(rules.crc(body)));
    }
    var ok, d := DecodeBody(rules, body);
    r := if ok then Decoded(d) else Refused(Protocol);
    if ok {
      forall e | LegalDelivery(rules, e, limit) && data == EncodeDelivery(rules, e)
        ensures e == d
      {
        EncodingUnique(rules, d, e, limit);
      }
    }
  }

  /** A delivery has one encoding, and an encoding one delivery: null is not empty. */
  lemma EncodingUnique(rules: Rules, d: Delivery, e: Delivery, limit: nat)
    requires LegalDelivery(rules, d, limit) && LegalDelivery(rules, e, limit)
    requires EncodeDelivery(rules, d) == EncodeDelivery(rules, e)
    ensures d == e
  {
    SplitEqual(Body(d), U32(rules.crc(Body(d))), Body(e), U32(rules.crc(Body(e))));
    SplitEqual(MAGIC, U16(VERSION) + Content(d), MAGIC, U16(VERSION) + Content(e));
    SplitEqual(U16(VERSION), Content(d), U16(VERSION), Content(e));
    FieldPrefix(d.checkpoint, e.checkpoint, U32(|d.records|) + EncodeRecords(d.records),
                U32(|e.records|) + EncodeRecords(e.records));
    U32Prefix(|d.records|, |e.records|, EncodeRecords(d.records), EncodeRecords(e.records));
    assert EncodeRecords(d.records) + [] == EncodeRecords(d.records)
        && EncodeRecords(e.records) + [] == EncodeRecords(e.records);
    RecordsPrefix(rules, d.records, e.records, [], []);
  }
}
