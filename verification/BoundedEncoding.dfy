/** Bounded encoding of a change refines plain encoding: the same bytes, or a refusal exactly
    when they would be too many. */
module BoundedEncoding {
  import opened Options
  import opened BigEndian
  import opened Layouts
  import opened BodySizes

  type bytes = seq<byte>

  const MAGIC: bytes := [68, 80, 67, 72, 66, 48, 48, 49]
  const CANONICAL_EOS: bytes := [255, 255, 255, 255, 0, 0, 0, 0]
  const FINGERPRINT_BYTES: nat := 32

  datatype CodecError = SchemaMismatch | ArrowError | EncodedSizeLimitExceeded

  datatype Encoded = Bytes(bytes: bytes) | Refused(error: CodecError)

  /** A change as the codec sees it. `message` is the framed batch in the pieces the IPC writer
      hands to its output, or None when Arrow cannot build it. */
  datatype Change = Change(matches: bool, fields: seq<Field>, diffs: ArrayData, columns: seq<ArrayData>,
                           message: Option<seq<bytes>>)

  function Flatten(pieces: seq<bytes>): bytes
  {
    if pieces == [] then [] else pieces[0] + Flatten(pieces[1..])
  }

  /** The message contains the body. */
  ghost predicate Proper(c: Change)
  {
    && WellFormedChange(c.fields, c.diffs, c.columns)
    && (c.message.Some? ==> |Flatten(c.message.value)| >= BodyBytes(c.fields, c.diffs, c.columns))
  }

  /** Where piece `k` starts. */
  function StartOf(pieces: seq<bytes>, k: nat): nat
    requires k <= |pieces|
  {
    if k == 0 then 0 else StartOf(pieces, k - 1) + |pieces[k - 1]|
  }

  lemma {:induction false} StartRest(pieces: seq<bytes>, k: nat)
    requires 0 < k <= |pieces|
    ensures StartOf(pieces, k) == |pieces[0]| + StartOf(pieces[1..], k - 1)
  {
    if k > 1 {
      StartRest(pieces, k - 1);
    } else {
      assert StartOf(pieces, 0) == 0;
    }
  }

  /** The pieces stand one after the other, in their order, and nothing else does. */
  lemma {:induction false} PieceStands(pieces: seq<bytes>, k: nat)
    requires k < |pieces|
    ensures StartOf(pieces, k + 1) <= StartOf(pieces, |pieces|) == |Flatten(pieces)|
    ensures Flatten(pieces)[StartOf(pieces, k)..StartOf(pieces, k + 1)] == pieces[k]
  {
    var rest := pieces[1..];
    StartRest(pieces, |pieces|);
    StartRest(pieces, k + 1);
    if k > 0 {
      StartRest(pieces, k);
      PieceStands(rest, k - 1);
      assert Flatten(pieces)[StartOf(pieces, k)..StartOf(pieces, k + 1)]
          == Flatten(rest)[StartOf(rest, k - 1)..StartOf(rest, k)];
    } else {
      FlattenLength(rest);
    }
  }

  lemma {:induction false} FlattenLength(pieces: seq<bytes>)
    ensures StartOf(pieces, |pieces|) == |Flatten(pieces)|
  {
    if pieces != [] {
      StartRest(pieces, |pieces|);
      FlattenLength(pieces[1..]);
    }
  }

  /** Refuses to grow past its limit. */
  class BoundedWriter {
    const maxBytes: nat
    var written: bytes
    var limitHit: bool

    ghost predicate Valid()
      reads this
    {
      |written| <= maxBytes
    }

    constructor (maxBytes: nat)
      ensures Valid() && written == [] && this.maxBytes == maxBytes && !limitHit
    {
      this.maxBytes := maxBytes;
      written, limitHit := [], false;
    }

    method Write(input: bytes) returns (ok: bool)
      requires Valid()
      modifies this
      ensures Valid()
      ensures ok <==> |old(written)| + |input| <= maxBytes
      ensures written == if ok then old(written) + input else old(written)
      ensures limitHit == (old(limitHit) || !ok)
    {
      if |written| + |input| > maxBytes {
        limitHit := true;
        return false;
      }
      written := written + input;
      ok := true;
    }

    /** Writes every piece, stopping at the first one that does not fit. */
    method WriteAll(pieces: seq<bytes>) returns (ok: bool)
      requires Valid()
      modifies this
      ensures Valid()
      ensures ok <==> |old(written)| + |Flatten(pieces)| <= maxBytes
      ensures ok ==> written == old(written) + Flatten(pieces) && limitHit == old(limitHit)
      ensures !ok ==> limitHit
    {
      assert pieces[0..] == pieces;
      for k := 0 to |pieces|
        invariant Valid() && limitHit == old(limitHit)
        invariant old(written) + Flatten(pieces) == written + Flatten(pieces[k..])
      {
        assert pieces[k..][0] == pieces[k] && pieces[k..][1..] == pieces[k + 1..];
        ghost var before := written;
        var wrote := Write(pieces[k]);
        assert before + Flatten(pieces[k..]) == (before + pieces[k]) + Flatten(pieces[k + 1..]);
        if !wrote {
          return false;
        }
      }
      ok := true;
    }
  }

  /** The complete entry. */
  function Entry(fingerprint: bytes, message: seq<bytes>): bytes
  {
    MAGIC + fingerprint + Flatten(message) + CANONICAL_EOS
  }

  /** An entry is the magic DPCHB001, the fingerprint, the framed batch, and the end of the stream. */
  predicate EntryStands(data: bytes, fingerprint: bytes, message: bytes)
  {
    && |fingerprint| == 32 && |data| == 8 + 32 + |message| + 8
    && data[0] == 68 && data[1] == 80 && data[2] == 67 && data[3] == 72
    && data[4] == 66 && data[5] == 48 && data[6] == 48 && data[7] == 49
    && data[8..40] == fingerprint && data[40..40 + |message|] == message
    && data[40 + |message|..] == [255, 255, 255, 255, 0, 0, 0, 0]
  }

  lemma EntryIs(fingerprint: bytes, message: seq<bytes>)
    requires |fingerprint| == FINGERPRINT_BYTES
    ensures EntryStands(Entry(fingerprint, message), fingerprint, Flatten(message))
  {
    var data, m := Entry(fingerprint, message), Flatten(message);
    assert forall k :: 0 <= k < 8 ==> data[k] == MAGIC[k];
    assert data[40 + |m|..] == CANONICAL_EOS;
    assert data[8..40] == fingerprint;
    assert data[40..40 + |m|] == m;
  }

  method Encode(c: Change, fingerprint: bytes) returns (r: Encoded)
    ensures r
        == if !c.matches then Refused(SchemaMismatch)
           else if c.message.None? then Refused(ArrowError)
           else Bytes(Entry(fingerprint, c.message.value))
  {
    if !c.matches {
      return Refused(SchemaMismatch);
    }
    if c.message.None? {
      return Refused(ArrowError);
    }
    var output := MAGIC;
    output := output + fingerprint;
    output := output + Flatten(c.message.value);
    output := output + CANONICAL_EOS;
    r := Bytes(output);
  }

  /** Returns the same bytes as plain encoding exactly when they are within the limit; the check
      of the body size beforehand never refuses an entry that fits. */
  method EncodeBounded(c: Change, fingerprint: bytes, maxBytes: nat) returns (r: Encoded)
    requires Proper(c) && |fingerprint| == FINGERPRINT_BYTES && maxBytes <= MAX_USIZE
    ensures !c.matches <==> r == Refused(SchemaMismatch)
    ensures c.matches && c.message.Some? ==>
      r == if |Entry(fingerprint, c.message.value)| <= maxBytes
           then Bytes(Entry(fingerprint, c.message.value))
           else Refused(EncodedSizeLimitExceeded)
    ensures c.matches && c.message.None? ==>
      r == if |MAGIC| + FINGERPRINT_BYTES + BodyBytes(c.fields, c.diffs, c.columns) <= maxBytes
           then Refused(ArrowError)
           else Refused(EncodedSizeLimitExceeded)
    ensures r.Bytes? ==>
      c.message.Some? && |r.bytes| <= maxBytes && EntryStands(r.bytes, fingerprint, Flatten(c.message.value))
  {
    if c.message.Some? {
      EntryIs(fingerprint, c.message.value);
    }
    if !c.matches {
      return Refused(SchemaMismatch);
    }
    var body := BodyLenBounded(c.fields, c.diffs, c.columns, maxBytes);
    if body.None? {
      return Refused(EncodedSizeLimitExceeded);
    }
    var output := new BoundedWriter(maxBytes);
    var prefixed := output.Write(MAGIC);
    if prefixed {
      prefixed := output.Write(fingerprint);
    }
    if !prefixed || body.value > output.maxBytes - |output.written| {
      return Refused(EncodedSizeLimitExceeded);
    }
    if c.message.None? {
      return Refused(ArrowError);
    }
    var wrote := output.WriteAll(c.message.value);
    if !wrote {
      // Only the limit stops the writer.
      assert output.limitHit;
      return Refused(EncodedSizeLimitExceeded);
    }
    var closed := output.Write(CANONICAL_EOS);
    if !closed {
      return Refused(EncodedSizeLimitExceeded);
    }
    assert [] + MAGIC == MAGIC;
    r := Bytes(output.written);
  }
}
