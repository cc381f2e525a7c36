/** A moving cursor over received bytes, and the fields it reads. Every encoding here is
    prefix-free, so a read either recovers the one value written there or shows that there is none. */
module WireInput {
  import opened BigEndian
  import opened Options
  import opened Sequences

  const I32_LIMIT: int := 0x8000_0000
  const U32_LIMIT: int := 0x1_0000_0000
  const MAX_USIZE: int := 0xffff_ffff_ffff_ffff

  type bytes = seq<byte>

  function U16(n: nat): bytes { Encode(n, 2) }
  function U32(n: nat): bytes { Encode(n, 4) }

  /** A length and that many bytes. */
  function Field(value: bytes): bytes
  {
    U32(|value|) + value
  }

  /** A length and that many bytes, or the length -1 for null. */
  function NullableField(value: Option<bytes>): bytes
  {
    if value.None? then U32(U32_LIMIT - 1) else Field(value.value)
  }

  /** What the checks the format leaves to libraries decide. */
  datatype Rules = Rules(crc: bytes -> nat, utf8: bytes -> bool, blank: bytes -> bool)

  ghost predicate ProperRules(rules: Rules)
  {
    forall b :: rules.crc(b) < U32_LIMIT
  }

  lemma U32Prefix(n: nat, m: nat, a: bytes, b: bytes)
    requires n < U32_LIMIT && m < U32_LIMIT && U32(n) + a == U32(m) + b
    ensures n == m && a == b
  {
    Widths();
    SplitEqual(U32(n), a, U32(m), b);
    DecodeEncode(n, 4);
    DecodeEncode(m, 4);
  }

  lemma FieldPrefix(v: bytes, w: bytes, a: bytes, b: bytes)
    requires |v| < U32_LIMIT && |w| < U32_LIMIT && Field(v) + a == Field(w) + b
    ensures v == w && a == b
  {
    assert Field(v) + a == U32(|v|) + (v + a) && Field(w) + b == U32(|w|) + (w + b);
    U32Prefix(|v|, |w|, v + a, w + b);
    SplitEqual(v, a, w, b);
  }

  ghost predicate Representable(v: Option<bytes>)
  {
    v.Some? ==> |v.value| < I32_LIMIT
  }

  lemma NullablePrefix(v: Option<bytes>, w: Option<bytes>, a: bytes, b: bytes)
    requires Representable(v) && Representable(w) && NullableField(v) + a == NullableField(w) + b
    ensures v == w && a == b
  {
    var n := if v.None? then U32_LIMIT - 1 else |v.value|;
    var m := if w.None? then U32_LIMIT - 1 else |w.value|;
    var a' := if v.None? then a else v.value + a;
    var b' := if w.None? then b else w.value + b;
    if v.Some? { Assoc(U32(n), v.value, a); }
    if w.Some? { Assoc(U32(m), w.value, b); }
    U32Prefix(n, m, a', b');
    if v.Some? {
      SplitEqual(v.value, a, w.value, b);
    }
  }

  /** Between `at` and `end` stand the length of `value` and its bytes. */
  predicate FieldAt(data: bytes, at: nat, value: bytes, end: nat)
  {
    at + 4 + |value| == end <= |data| && WordAt(data, at) == |value| && data[at + 4..end] == value
  }

  /** Between `at` and `end` stands -1 in two's complement for null, or a length and that many bytes. */
  predicate NullableAt(data: bytes, at: nat, value: Option<bytes>, end: nat)
  {
    if value.None? then at + 4 == end <= |data| && data[at..end] == [255, 255, 255, 255]
    else |value.value| < 0x8000_0000 && FieldAt(data, at, value.value, end)
  }

  lemma FieldIff(data: bytes, at: nat, value: bytes, end: nat)
    requires at + 4 + |value| == end <= |data| && |value| < U32_LIMIT
    ensures data[at..end] == Field(value) <==> FieldAt(data, at, value, end)
  {
    Cut(data, at, at + 4, end, U32(|value|), value);
    WordIff(data, at, |value|);
  }

  lemma WordThen(data: bytes, at: nat, n: nat, tail: bytes, end: nat)
    requires at + 4 + |tail| == end <= |data| && n < U32_LIMIT
    ensures data[at..end] == U32(n) + tail <==> WordAt(data, at) == n && data[at + 4..end] == tail
  {
    Cut(data, at, at + 4, end, U32(n), tail);
    WordIff(data, at, n);
  }

  lemma FieldThen(data: bytes, at: nat, value: bytes, tail: bytes, end: nat)
    requires at + 4 + |value| + |tail| == end <= |data| && |value| < U32_LIMIT
    ensures data[at..end] == Field(value) + tail
        <==> FieldAt(data, at, value, at + 4 + |value|) && data[at + 4 + |value|..end] == tail
  {
    Cut(data, at, at + 4 + |value|, end, Field(value), tail);
    FieldIff(data, at, value, at + 4 + |value|);
  }

  /** Eight bytes of magic, two of version, and what follows. */
  lemma PrefixThen(data: bytes, magic: bytes, version: byte, tail: bytes, end: nat)
    requires 10 + |tail| == end <= |data| && |magic| == 8
    ensures data[..end] == magic + (U16(version) + tail)
        <==> data[..10] == magic + [0, version] && data[10..end] == tail
  {
    assert Encode(0, 1) == [0] && Encode(version as nat / 256, 1) == [0];
    assert U16(version) == [0, version];
    Assoc(magic, U16(version), tail);
    Cut(data, 0, 10, end, magic + U16(version), tail);
    assert data[0..10] == data[..10] && data[0..end] == data[..end];
  }

  lemma NullableIff(data: bytes, at: nat, value: Option<bytes>, end: nat)
    requires Representable(value) && at + 4 + (if value.None? then 0 else |value.value|) == end <= |data|
    ensures data[at..end] == NullableField(value) <==> NullableAt(data, at, value, end)
  {
    if value.None? {
      WordIff(data, at, U32_LIMIT - 1);
      assert data[at..end] == [data[at], data[at + 1], data[at + 2], data[at + 3]];
    } else {
      FieldIff(data, at, value.value, end);
    }
  }

  class Input {
    const data: bytes
    var position: nat

    ghost predicate Valid()
      reads this
    {
      position <= |data|
    }

    ghost function Rest(): bytes
      reads this
      requires Valid()
    {
      data[position..]
    }

    constructor (data: bytes)
      ensures Valid() && this.data == data && position == 0 && Rest() == data
    {
      this.data := data;
      position := 0;
    }

    method Take(length: nat) returns (r: Option<bytes>)
      requires Valid() && |data| <= MAX_USIZE
      modifies this
      ensures Valid()
      ensures r.Some? <==> length <= |old(Rest())|
      ensures r.Some? ==> |r.value| == length && old(Rest()) == r.value + Rest() && position == old(position) + length
      ensures r.None? ==> position == old(position)
    {
      if position + length > MAX_USIZE || position + length > |data| {
        return None;
      }
      r := Some(data[position..position + length]);
      position := position + length;
    }

    method ReadU16() returns (r: Option<nat>)
      requires Valid() && |data| <= MAX_USIZE
      modifies this
      ensures Valid()
      ensures r.Some? <==> 2 <= |old(Rest())|
      ensures r.Some? ==> r.value < 0x1_0000 && old(Rest()) == U16(r.value) + Rest() && position == old(position) + 2
    {
      var taken := Take(2);
      if taken.None? {
        return None;
      }
      Widths();
      EncodeDecode(taken.value);
      r := Some(Decode(taken.value));
    }

    method ReadU32() returns (r: Option<nat>)
      requires Valid() && |data| <= MAX_USIZE
      modifies this
      ensures Valid()
      ensures r.Some? <==> 4 <= |old(Rest())|
      ensures r.Some? ==> r.value < U32_LIMIT && old(Rest()) == U32(r.value) + Rest() && position == old(position) + 4
    {
      var taken := Take(4);
      if taken.None? {
        return None;
      }
      Widths();
      EncodeDecode(taken.value);
      r := Some(Decode(taken.value));
    }

    /** Reads a two's complement length. */
    method ReadI32() returns (r: Option<int>)
      requires Valid() && |data| <= MAX_USIZE
      modifies this
      ensures Valid()
      ensures r.Some? <==> 4 <= |old(Rest())|
      ensures r.Some? ==> -I32_LIMIT <= r.value < I32_LIMIT && position == old(position) + 4
      ensures r.Some? ==> old(Rest()) == U32(if r.value < 0 then r.value + U32_LIMIT else r.value) + Rest()
    {
      var word := ReadU32();
      if word.None? {
        return None;
      }
      r := Some(if word.value < I32_LIMIT then word.value else word.value - U32_LIMIT);
    }

    /** Reads a length-prefixed field of at most `maximum` bytes. */
    method ReadField(maximum: nat) returns (r: Option<bytes>)
      requires Valid() && |data| <= MAX_USIZE && maximum < U32_LIMIT
      modifies this
      ensures Valid()
      ensures r.Some? ==>
        |r.value| <= maximum && old(Rest()) == Field(r.value) + Rest() && position == old(position) + 4 + |r.value|
      ensures r.None? ==> forall v: bytes, a: bytes :: |v| <= maximum ==> old(Rest()) != Field(v) + a
    {
      ghost var rest := Rest();
      var length := ReadU32();
      if length.None? {
        return None;
      }
      forall v: bytes, a: bytes | |v| <= maximum && rest == Field(v) + a
        ensures |v| == length.value && v + a == Rest()
      {
        assert rest == U32(|v|) + (v + a);
        U32Prefix(|v|, length.value, v + a, Rest());
      }
      if length.value > maximum {
        return None;
      }
      r := Take(length.value);
      if r.Some? {
        assert rest == Field(r.value) + Rest();
      }
    }

    /** Reads a field whose length is written as a signed integer. */
    method ReadSignedField(maximum: nat) returns (r: Option<bytes>)
      requires Valid() && |data| <= MAX_USIZE && maximum < I32_LIMIT
      modifies this
      ensures Valid()
      ensures r.Some? ==>
        |r.value| <= maximum && old(Rest()) == Field(r.value) + Rest() && position == old(position) + 4 + |r.value|
      ensures r.None? ==> forall v: bytes, a: bytes :: |v| <= maximum ==> old(Rest()) != Field(v) + a
    {
      ghost var rest := Rest();
      var length := ReadI32();
      if length.None? {
        return None;
      }
      ghost var word := if length.value < 0 then length.value + U32_LIMIT else length.value;
      forall v: bytes, a: bytes | |v| <= maximum && rest == Field(v) + a
        ensures |v| == word && v + a == Rest()
      {
        assert rest == U32(|v|) + (v + a);
        U32Prefix(|v|, word, v + a, Rest());
      }
      if length.value < 0 || length.value > maximum {
        return None;
      }
      r := Take(length.value);
      if r.Some? {
        assert rest == Field(r.value) + Rest();
      }
    }

    /** Reads a nullable length-prefixed field. */
    method ReadNullable() returns (r: Option<Option<bytes>>)
      requires Valid() && |data| <= MAX_USIZE
      modifies this
      ensures Valid()
      ensures r.Some? ==> Representable(r.value) && old(Rest()) == NullableField(r.value) + Rest()
      ensures r.None? ==> forall v: Option<bytes>, a: bytes :: Representable(v) ==> old(Rest()) != NullableField(v) + a
    {
      ghost var rest := Rest();
      var length := ReadI32();
      if length.None? {
        return None;
      }
      ghost var word := if length.value < 0 then length.value + U32_LIMIT else length.value;
      forall v: Option<bytes>, a: bytes | Representable(v) && rest == NullableField(v) + a
        ensures if v.None? then word == U32_LIMIT - 1 else |v.value| == word && v.value + a == Rest()
      {
        if v.None? {
          U32Prefix(U32_LIMIT - 1, word, a, Rest());
        } else {
          assert rest == U32(|v.value|) + (v.value + a);
          U32Prefix(|v.value|, word, v.value + a, Rest());
        }
      }
      if length.value == -1 {
        return Some(None);
      }
      if length.value < 0 {
        return None;
      }
      var taken := Take(length.value);
      if taken.None? {
        return None;
      }
      r := Some(taken);
      assert rest == NullableField(taken) + Rest();
    }

    predicate AtEnd()
      reads this
    {
      position == |data|
    }
  }
}
