/** Byte-level vocabulary shared by the frame, codec and layout modules:
    the fixed-width integer types of the C++ code, big-endian field encoding,
    byte sums and the XOR-with-0x20 used by byte stuffing. */
module Bytes {

  /** The source's `uint8_t`. */
  type uint8 = x: int | 0 <= x < 0x100

  /** The source's `uint16_t`. */
  type uint16 = x: int | 0 <= x < 0x1_0000

  /** 256 to the power `w`: how many values a `w`-byte field can hold. */
  function Pow256(w: nat): (r: nat)
    ensures r >= 1
  {
    if w == 0 then 1 else 256 * Pow256(w - 1)
  }

  /** The `w`-byte big-endian image of `v`, most significant byte first, as the
      field setters write it byte by byte (`(v >> 8) & 0xff`, then `v & 0xff`). */
  function ToBigEndian(v: nat, w: nat): (r: seq<uint8>)
    requires v < Pow256(w)
    ensures |r| == w
  {
    if w == 0 then [] else ToBigEndian(v / 256, w - 1) + [v % 256]
  }

  /** The number whose big-endian image is `bs`; a `|bs|`-byte field can hold it. */
  function FromBigEndian(bs: seq<uint8>): (r: nat)
    ensures r < Pow256(|bs|)
  {
    if bs == [] then 0 else FromBigEndian(bs[..|bs| - 1]) * 256 + bs[|bs| - 1]
  }

  /** Reading back a big-endian field gives the value that was written. */
  lemma {:induction false} BigEndianRoundTrip(v: nat, w: nat)
    requires v < Pow256(w)
    ensures FromBigEndian(ToBigEndian(v, w)) == v
  {
    if w > 0 {
      var r := ToBigEndian(v, w);
      assert r[..|r| - 1] == ToBigEndian(v / 256, w - 1);
      BigEndianRoundTrip(v / 256, w - 1);
    }
  }

  /** Every byte string is the big-endian image of its value: the encoding is onto. */
  lemma {:induction false} BigEndianImage(bs: seq<uint8>)
    ensures ToBigEndian(FromBigEndian(bs), |bs|) == bs
  {
    if bs != [] {
      var init := bs[..|bs| - 1];
      BigEndianImage(init);
      var v := FromBigEndian(bs);
      assert v / 256 == FromBigEndian(init);
      assert v % 256 == bs[|bs| - 1];
      assert bs == init + [bs[|bs| - 1]];
    }
  }

  /** A two-byte field read big-endian: the first byte times 256 plus the second. */
  lemma FromBigEndianPair(hi: uint8, lo: uint8)
    ensures FromBigEndian([hi, lo]) == hi * 256 + lo
  {
    assert [hi, lo][..1] == [hi];
    assert [hi][..0] == [];
  }

  /** The plain sum of a byte string (the checksum arithmetic reduces it mod 256). */
  function SumBytes(s: seq<uint8>): nat
  {
    if s == [] then 0 else s[0] + SumBytes(s[1..])
  }

  /** Sums distribute over concatenation. */
  lemma {:induction false} SumBytesAppend(a: seq<uint8>, b: seq<uint8>)
    ensures SumBytes(a + b) == SumBytes(a) + SumBytes(b)
  {
    if a == [] {
      assert a + b == b;
    } else {
      assert (a + b)[1..] == a[1..] + b;
      SumBytesAppend(a[1..], b);
    }
  }

  /** Extending a prefix by one byte adds that byte to the sum. */
  lemma SumBytesPrefix(s: seq<uint8>, i: nat)
    requires i < |s|
    ensures SumBytes(s[..i + 1]) == SumBytes(s[..i]) + s[i]
  {
    assert s[..i + 1] == s[..i] + [s[i]];
    SumBytesAppend(s[..i], [s[i]]);
    assert [s[i]][1..] == [];
  }

  /** Reducing an 8-bit accumulator before adding the next byte does not change the result. */
  lemma ModAccumulate(total: int, b: int)
    ensures ((total % 256) + b) % 256 == (total + b) % 256
  {
  }

  /** Overwriting `bytes` at `offset` inside the first `n` elements commutes with taking those `n`. */
  lemma SpliceTake<T>(s: seq<T>, offset: nat, bytes: seq<T>, n: nat)
    requires offset + |bytes| <= n <= |s|
    ensures (s[..offset] + bytes + s[offset + |bytes|..])[..n] == s[..n][..offset] + bytes + s[..n][offset + |bytes|..]
  {
  }

  /** Replacing one byte changes the sum by exactly the difference of the two bytes. */
  lemma {:induction false} SumBytesUpdate(s: seq<uint8>, i: nat, b: uint8)
    requires i < |s|
    ensures SumBytes(s[i := b]) == SumBytes(s) - s[i] + b
  {
    if i > 0 {
      assert s[i := b][1..] == s[1..][i - 1 := b];
      SumBytesUpdate(s[1..], i - 1, b);
    }
  }

  /** The source's `b ^ 0x20`: flips bit 5 and leaves every other bit alone. */
  function Xor20(b: uint8): uint8
  {
    if (b / 0x20) % 2 == 1 then b - 0x20 else b + 0x20
  }

  /** XOR with 0x20 is an involution, so unstuffing undoes stuffing. */
  lemma Xor20Involution(b: uint8)
    ensures Xor20(Xor20(b)) == b
  {
  }
}
