/** The durable encodings of integer keys: canonical, injective, and ordered byte for byte as
    the integers they stand for. */
module StoreKeys {
  import opened BigEndian
  import opened Options

  const I64_LOW: int := -0x8000_0000_0000_0000
  const SIGN: int := 0x8000_0000_0000_0000
  const WORD: int := 0x1_0000_0000_0000_0000

  type u32 = n: int | 0 <= n < 0x1_0000_0000
  type u64 = n: int | 0 <= n < 0x1_0000_0000_0000_0000
  type i64 = n: int | -0x8000_0000_0000_0000 <= n < 0x8000_0000_0000_0000

  function EncodeU32(n: u32): seq<byte>
  {
    Encode(n, 4)
  }

  function DecodeU32(bs: seq<byte>): Option<nat>
  {
    if |bs| == 4 then Some(Decode(bs)) else None
  }

  function EncodeU64(n: u64): seq<byte>
  {
    Encode(n, 8)
  }

  function DecodeU64(bs: seq<byte>): Option<nat>
  {
    if |bs| == 8 then Some(Decode(bs)) else None
  }

  /** Two's complement. */
  function BitsOf(n: i64): u64
  {
    if n >= 0 then n else n + WORD
  }

  function IntegerOf(bits: u64): i64
  {
    if bits < SIGN then bits else bits - WORD
  }

  /** Bitwise exclusive or. */
  function Xor(a: nat, b: nat): nat
  {
    if a == 0 && b == 0 then 0 else 2 * Xor(a / 2, b / 2) + (a % 2 + b % 2) % 2
  }

  /** The sign bit of a leading byte, flipped. */
  function FlipTop(b: byte): byte
  {
    TopBit();
    FlipBit(b, 7);
    Xor(b, 128)
  }

  function Bit(k: nat): (p: nat)
    ensures p > 0
  {
    if k == 0 then 1 else 2 * Bit(k - 1)
  }

  lemma {:induction false} XorZero(a: nat)
    ensures Xor(a, 0) == a
  {
    if a != 0 {
      XorZero(a / 2);
    }
  }

  /** Flipping one bit below the width adds or subtracts its weight. */
  lemma {:induction false} FlipBit(a: nat, k: nat)
    requires a < 2 * Bit(k)
    ensures Xor(a, Bit(k)) == if a < Bit(k) then a + Bit(k) else a - Bit(k)
  {
    if k == 0 {
      XorZero(0);
    } else {
      var h, low := a / 2, a % 2;
      assert Bit(k) / 2 == Bit(k - 1) && Bit(k) % 2 == 0;
      FlipBit(h, k - 1);
      assert Xor(a, Bit(k)) == 2 * Xor(h, Bit(k - 1)) + low;
    }
  }

  lemma TopBit()
    ensures Bit(7) == 128
  {
    assert Bit(3) == 8;
    assert Bit(5) == 32;
  }

  function EncodeI64(n: i64): seq<byte>
  {
    var bytes := Encode(BitsOf(n), 8);
    bytes[0 := FlipTop(bytes[0])]
  }

  function DecodeI64(bs: seq<byte>): Option<int>
  {
    if |bs| != 8 then None
    else
      var bytes := bs[0 := FlipTop(bs[0])];
      Widths();
      Some(IntegerOf(Decode(bytes)))
  }

  /** An ordered, canonical key encoding. */
  lemma U32Keys(a: u32, b: u32)
    ensures LexLess(EncodeU32(a), EncodeU32(b)) <==> a < b
    ensures EncodeU32(a) == EncodeU32(b) <==> a == b
    ensures DecodeU32(EncodeU32(a)) == Some(a)
  {
    Widths();
    DecodeEncode(a, 4);
    DecodeEncode(b, 4);
    DecodeMonotone(EncodeU32(a), EncodeU32(b));
  }

  lemma U64Keys(a: u64, b: u64)
    ensures LexLess(EncodeU64(a), EncodeU64(b)) <==> a < b
    ensures EncodeU64(a) == EncodeU64(b) <==> a == b
    ensures DecodeU64(EncodeU64(a)) == Some(a)
  {
    Widths();
    DecodeEncode(a, 8);
    DecodeEncode(b, 8);
    DecodeMonotone(EncodeU64(a), EncodeU64(b));
  }

  /** Whatever decodes was encoded, and exactly the strings of the right length decode. */
  lemma UnsignedDecodes(bs: seq<byte>)
    ensures DecodeU32(bs).Some? <==> |bs| == 4
    ensures DecodeU64(bs).Some? <==> |bs| == 8
    ensures DecodeU32(bs).Some? ==> DecodeU32(bs).value < 0x1_0000_0000 && EncodeU32(DecodeU32(bs).value) == bs
    ensures DecodeU64(bs).Some? ==> DecodeU64(bs).value < WORD && EncodeU64(DecodeU64(bs).value) == bs
  {
    Widths();
    EncodeDecode(bs);
  }

  lemma FlipTopShifts(b: byte)
    ensures FlipTop(b) == if b < 128 then b + 128 else b - 128
    ensures FlipTop(FlipTop(b)) == b
  {
    TopBit();
    FlipBit(b, 7);
    FlipBit(FlipTop(b), 7);
  }

  lemma Scale(d: int, p: int)
    ensures d * p * 256 == d * (256 * p)
  {
  }

  /** Replacing the leading byte moves the value by that byte's weight. */
  lemma {:induction false} DecodeLead(bs: seq<byte>, b: byte)
    requires bs != []
    ensures Decode(bs[0 := b]) == Decode(bs) + (b - bs[0]) * Power(|bs| - 1)
  {
    if |bs| == 1 {
      assert bs[..0] == [] && bs[0 := b][..0] == [];
    } else {
      var last := |bs| - 1;
      assert bs[0 := b][..last] == bs[..last][0 := b];
      DecodeLead(bs[..last], b);
      Scale(b - bs[0], Power(last - 1));
    }
  }

  /** Flipping the top bit of an eight-byte integer shifts it by half the range. */
  lemma FlipShifts(bs: seq<byte>)
    requires |bs| == 8
    ensures Decode(bs[0 := FlipTop(bs[0])]) == if Decode(bs) < SIGN then Decode(bs) + SIGN else Decode(bs) - SIGN
    ensures bs[0] < 128 <==> Decode(bs) < SIGN
  {
    Widths();
    FlipTopShifts(bs[0]);
    DecodeLead(bs, FlipTop(bs[0]));
    DecodeLead(bs, 0);
    assert Power(7) == 0x100_0000_0000_0000;
    LeadingZero(bs[0 := 0]);
  }

  lemma LeadingZero(bs: seq<byte>)
    requires |bs| == 8 && bs[0] == 0
    ensures Decode(bs) < Power(7)
  {
    var rest := bs[1..];
    assert bs == [0] + rest;
    DecodePrefixZero(rest);
  }

  lemma {:induction false} DecodePrefixZero(bs: seq<byte>)
    ensures Decode([0] + bs) == Decode(bs)
  {
    if bs != [] {
      var last := |bs| - 1;
      assert ([0] + bs)[..last + 1] == [0] + bs[..last];
      DecodePrefixZero(bs[..last]);
    } else {
      assert ([0] + bs)[..0] == [];
    }
  }

  /** The key of a signed integer is the unsigned key of its shift by half the range. */
  lemma I64IsShifted(n: i64)
    ensures Decode(EncodeI64(n)) == n + SIGN && |EncodeI64(n)| == 8
  {
    Widths();
    DecodeEncode(BitsOf(n), 8);
    FlipShifts(Encode(BitsOf(n), 8));
  }

  lemma I64Keys(a: i64, b: i64)
    ensures LexLess(EncodeI64(a), EncodeI64(b)) <==> a < b
    ensures EncodeI64(a) == EncodeI64(b) <==> a == b
    ensures DecodeI64(EncodeI64(a)) == Some(a)
  {
    I64IsShifted(a);
    I64IsShifted(b);
    DecodeMonotone(EncodeI64(a), EncodeI64(b));
    var bits := Encode(BitsOf(a), 8);
    FlipTopShifts(bits[0]);
    assert EncodeI64(a)[0 := FlipTop(EncodeI64(a)[0])] == bits;
    Widths();
    DecodeEncode(BitsOf(a), 8);
  }

  lemma I64Decodes(bs: seq<byte>)
    ensures DecodeI64(bs).Some? <==> |bs| == 8
    ensures DecodeI64(bs).Some? ==> I64_LOW <= DecodeI64(bs).value < SIGN && EncodeI64(DecodeI64(bs).value) == bs
  {
    if |bs| == 8 {
      Widths();
      var bits := bs[0 := FlipTop(bs[0])];
      EncodeDecode(bits);
      FlipTopShifts(bs[0]);
      assert Encode(BitsOf(IntegerOf(Decode(bits))), 8) == bits;
      assert bits[0 := FlipTop(bits[0])] == bs;
    }
  }
}
