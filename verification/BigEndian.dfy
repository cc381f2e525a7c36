/** Fixed-width big-endian integers and the lexicographic order of byte strings. */
module BigEndian {
  type byte = b: int | 0 <= b < 256

  function Power(width: nat): (p: nat)
    ensures p > 0
  {
    if width == 0 then 1 else 256 * Power(width - 1)
  }

  /** The `width` low-order bytes of `n`, most significant first. */
  function Encode(n: nat, width: nat): (bs: seq<byte>)
    ensures |bs| == width
  {
    if width == 0 then [] else Encode(n / 256, width - 1) + [n % 256]
  }

  function Decode(bs: seq<byte>): (n: nat)
    ensures n < Power(|bs|)
  {
    if bs == [] then 0 else Decode(bs[..|bs| - 1]) * 256 + bs[|bs| - 1]
  }

  lemma {:induction false} DecodeEncode(n: nat, width: nat)
    requires n < Power(width)
    ensures Decode(Encode(n, width)) == n
  {
    if width > 0 {
      DecodeEncode(n / 256, width - 1);
      assert Encode(n, width)[..width - 1] == Encode(n / 256, width - 1);
    }
  }

  lemma {:induction false} EncodeDecode(bs: seq<byte>)
    ensures Encode(Decode(bs), |bs|) == bs
  {
    if bs != [] {
      var last := |bs| - 1;
      EncodeDecode(bs[..last]);
      assert Decode(bs) / 256 == Decode(bs[..last]) && Decode(bs) % 256 == bs[last];
      assert bs[..last] + [bs[last]] == bs;
    }
  }

  lemma Widths()
    ensures Power(2) == 0x1_0000 && Power(4) == 0x1_0000_0000 && Power(8) == 0x1_0000_0000_0000_0000
  {
    assert Power(1) == 256;
    assert Power(2) == 0x1_0000;
    assert Power(3) == 0x100_0000;
    assert Power(4) == 0x1_0000_0000;
    assert Power(5) == 0x100_0000_0000;
    assert Power(6) == 0x1_0000_0000_0000;
    assert Power(7) == 0x100_0000_0000_0000;
  }

  /** The unsigned integer in the four bytes at `at`, most significant first. */
  function WordAt(data: seq<byte>, at: nat): nat
    requires at + 4 <= |data|
  {
    (((data[at] as int) * 256 + data[at + 1]) * 256 + data[at + 2]) * 256 + data[at + 3]
  }

  /** The same of eight bytes. */
  function LongAt(data: seq<byte>, at: nat): nat
    requires at + 8 <= |data|
  {
    WordAt(data, at) * 0x1_0000_0000 + WordAt(data, at + 4)
  }

  lemma WordIff(data: seq<byte>, at: nat, n: nat)
    requires at + 4 <= |data| && n < 0x1_0000_0000
    ensures data[at..at + 4] == Encode(n, 4) <==> WordAt(data, at) == n
  {
    var word := data[at..at + 4];
    assert word[..3] == data[at..at + 3] && word[..3][..2] == data[at..at + 2] && word[..3][..2][..1] == [data[at]];
    assert Decode([data[at]]) == data[at];
    assert Decode(data[at..at + 2]) == (data[at] as int) * 256 + data[at + 1];
    assert Decode(word) == WordAt(data, at);
    EncodeDecode(word);
    Widths();
    DecodeEncode(n, 4);
  }

  lemma DecodeWord(word: seq<byte>)
    requires |word| == 4
    ensures Decode(word) == WordAt(word, 0)
  {
    assert word[..3][..2] == word[..2] && word[..2][..1] == [word[0]];
    assert Decode([word[0]]) == word[0];
    assert Decode(word[..2]) == (word[0] as int) * 256 + word[1];
    assert Decode(word[..3]) == ((word[0] as int) * 256 + word[1]) * 256 + word[2];
  }

  /** Eight bytes are four and four. */
  lemma DecodeLong(long: seq<byte>)
    requires |long| == 8
    ensures Decode(long) == LongAt(long, 0)
  {
    var high, a, b, c := long[..4], long[..5], long[..6], long[..7];
    DecodeWord(high);
    assert a[..4] == high && b[..5] == a && c[..6] == b && long[..7] == c;
    assert Decode(a) == Decode(high) * 256 + long[4];
    assert Decode(b) == Decode(a) * 256 + long[5];
    assert Decode(c) == Decode(b) * 256 + long[6];
    assert Decode(long) == Decode(c) * 256 + long[7];
  }

  lemma LongIff(data: seq<byte>, at: nat, n: nat)
    requires at + 8 <= |data| && n < 0x1_0000_0000_0000_0000
    ensures data[at..at + 8] == Encode(n, 8) <==> LongAt(data, at) == n
  {
    var long := data[at..at + 8];
    DecodeLong(long);
    EncodeDecode(long);
    Widths();
    DecodeEncode(n, 8);
  }

  /** The order in which byte strings are stored and compared. */
  predicate LexLess(a: seq<byte>, b: seq<byte>)
  {
    b != [] && (a == [] || a[0] < b[0] || (a[0] == b[0] && LexLess(a[1..], b[1..])))
  }

  lemma {:induction false} LexLessTransitive(a: seq<byte>, b: seq<byte>, c: seq<byte>)
    requires LexLess(a, b) && LexLess(b, c)
    ensures LexLess(a, c)
  {
    if a != [] && a[0] == b[0] && b[0] == c[0] {
      LexLessTransitive(a[1..], b[1..], c[1..]);
    }
  }

  lemma {:induction false} LexLessIrreflexive(a: seq<byte>)
    ensures !LexLess(a, a)
  {
    if a != [] {
      LexLessIrreflexive(a[1..]);
    }
  }

  /** The last byte decides only between equal prefixes. */
  lemma {:induction false} LexLessLast(a: seq<byte>, x: byte, b: seq<byte>, y: byte)
    requires |a| == |b|
    ensures LexLess(a + [x], b + [y]) <==> LexLess(a, b) || (a == b && x < y)
  {
    if a != [] {
      assert (a + [x])[1..] == a[1..] + [x] && (b + [y])[1..] == b[1..] + [y];
      LexLessLast(a[1..], x, b[1..], y);
      assert a == [a[0]] + a[1..] && b == [b[0]] + b[1..];
    } else {
      assert (a + [x])[1..] == [] && (b + [y])[1..] == [];
    }
  }

  lemma {:induction false} DecodeInjective(a: seq<byte>, b: seq<byte>)
    requires |a| == |b| && Decode(a) == Decode(b)
    ensures a == b
  {
    EncodeDecode(a);
    EncodeDecode(b);
  }

  /** Strings of equal length are ordered as the integers they encode. */
  lemma {:induction false} DecodeMonotone(a: seq<byte>, b: seq<byte>)
    requires |a| == |b|
    ensures LexLess(a, b) <==> Decode(a) < Decode(b)
  {
    if a != [] {
      var last := |a| - 1;
      var a', b' := a[..last], b[..last];
      assert a == a' + [a[last]] && b == b' + [b[last]];
      LexLessLast(a', a[last], b', b[last]);
      DecodeMonotone(a', b');
      if a' != b' && Decode(a') == Decode(b') {
        DecodeInjective(a', b');
      }
    }
  }
}
