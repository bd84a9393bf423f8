/** Whole bytes put at the end of a stream, and taken from it again: what the packet and file
    formats are made of. */
module ByteFields {
  import opened Wrappers
  import opened BitStream
  import opened MemStreams

  /** The bytes `img` have been added behind `base`. */
  ghost predicate Grown(s: MemStream, base: seq<Byte>, img: seq<Byte>)
    reads s
  {
    s.CanWrite() && s.Data() == base + img && s.WriteAt() == 8 * |base + img|
  }

  lemma GrownEnds(s: MemStream, base: seq<Byte>, img: seq<Byte>)
    requires Grown(s, base, img)
    ensures s.CanWrite() && s.Data() == base + img && s.Data()[..Align(s.WriteAt()) / 8] == base + img
    ensures Align(s.WriteAt()) == s.WriteAt() == 8 * |base + img|
  {
    AlignWhole(|base + img|);
  }

  method AddU8(s: MemStream, v: nat, ghost base: seq<Byte>, ghost img: seq<Byte>)
    requires s.Valid() && Grown(s, base, img) && v < 0x100
    modifies s
    ensures s.Valid() && Grown(s, base, img + [ByteOf(v)]) && s.ReadAt() == old(s.ReadAt())
  {
    hide ByteOf, Align;
    GrownEnds(s, base, img);
    s.PutU8(v);
    assert base + img + [ByteOf(v)] == base + (img + [ByteOf(v)]);
  }

  method AddU16(s: MemStream, v: nat, ghost base: seq<Byte>, ghost img: seq<Byte>)
    requires s.Valid() && Grown(s, base, img) && v < 0x1_0000
    modifies s
    ensures s.Valid() && Grown(s, base, img + U16Bytes(v)) && s.ReadAt() == old(s.ReadAt())
  {
    hide U16Bytes, Align;
    GrownEnds(s, base, img);
    s.PutU16(v);
    assert base + img + U16Bytes(v) == base + (img + U16Bytes(v));
  }

  method AddU32(s: MemStream, v: nat, ghost base: seq<Byte>, ghost img: seq<Byte>)
    requires s.Valid() && Grown(s, base, img) && v < 0x1_0000_0000
    modifies s
    ensures s.Valid() && Grown(s, base, img + U32Bytes(v)) && s.ReadAt() == old(s.ReadAt())
  {
    hide U32Bytes, Align;
    GrownEnds(s, base, img);
    s.PutU32(v);
    assert base + img + U32Bytes(v) == base + (img + U32Bytes(v));
  }

  method AddBytes(s: MemStream, bytes: seq<Byte>, ghost base: seq<Byte>, ghost img: seq<Byte>)
    requires s.Valid() && Grown(s, base, img)
    modifies s
    ensures s.Valid() && Grown(s, base, img + bytes) && s.ReadAt() == old(s.ReadAt())
  {
    hide Align;
    GrownEnds(s, base, img);
    s.PutBytes(bytes);
    assert base + img + bytes == base + (img + bytes);
  }

  /** The bytes of a number of variable length. */
  function VLBytes(v: nat): (bs: seq<Byte>)
    ensures |bs| > 0
    decreases v
  {
    if v < 128 then [ByteOf(v)] else [ByteOf(v % 128 + 128)] + VLBytes(v / 128)
  }

  lemma {:induction false} VLBytesShort(v: nat, n: nat)
    requires v < Pow2(7 * n) && n > 0
    ensures |VLBytes(v)| <= n
  {
    if v >= 128 {
      assert Pow2(7) == 128;
      assert n > 1;
      PowSplit(7, 7 * (n - 1));
      VLBytesShort(v / 128, n - 1);
    }
  }

  lemma {:induction false} PowSplit(a: nat, b: nat)
    ensures Pow2(a + b) == Pow2(a) * Pow2(b)
  {
    if a > 0 {
      PowSplit(a - 1, b);
      TwiceProduct(Pow2(a - 1), Pow2(b));
    }
  }

  lemma TwiceProduct(q: nat, p: nat)
    ensures 2 * (q * p) == (2 * q) * p
  {}

  lemma {:induction false} VLBytesBits(v: nat)
    ensures AllBits(VLBytes(v)) == VLBits(v)
    decreases v
  {
    hide ByteOf, ValBits, Bit;
    if v < 128 {
      OneByteBits(v);
    } else {
      VLBytesBits(v / 128);
      OneByteBits(v % 128 + 128);
      AllBitsConcat([ByteOf(v % 128 + 128)], VLBytes(v / 128));
    }
  }

  lemma OneByteBits(v: nat)
    ensures AllBits([ByteOf(v)]) == ValBits(8, v)
  {
    hide ValBits, BitOf, Pack;
    PackBits(ValBits(8, v));
    forall n | 0 <= n < 8
      ensures AllBits([ByteOf(v)])[n] == ValBits(8, v)[n]
    {
      assert ByteBits(ByteOf(v))[n] == BitOf(ByteOf(v), n);
    }
  }

  lemma AllBitsConcat(a: seq<Byte>, b: seq<Byte>)
    ensures AllBits(a + b) == AllBits(a) + AllBits(b)
  {
    hide BitOf;
    forall n | 0 <= n < 8 * |a + b|
      ensures AllBits(a + b)[n] == (AllBits(a) + AllBits(b))[n]
    {
      if n >= 8 * |a| { ByteShift(a, b, n - 8 * |a|); }
    }
  }

  /** Whole bytes written bit by bit at the end are just appended. */
  lemma PutAtEnd(data: seq<Byte>, bytes: seq<Byte>)
    ensures Align(8 * |data|) <= 8 * |data| && PutBits(data, 8 * |data|, AllBits(bytes)) == data + bytes
  {
    hide Bit, PutBits, Align, AllBits;
    AlignWhole(|data|);
    AlignWhole(|data + bytes|);
    PutEndSize(data, bytes);
    var r := PutBits(data, 8 * |data|, AllBits(bytes));
    forall n | 0 <= n < 8 * |r|
      ensures Bit(r, n) == Bit(data + bytes, n)
    {
      EndBit(data, bytes, n);
    }
    SameBytes(r, data + bytes);
  }

  lemma PutEndSize(data: seq<Byte>, bytes: seq<Byte>)
    requires Align(8 * |data|) <= 8 * |data|
    ensures |PutBits(data, 8 * |data|, AllBits(bytes))| == |data + bytes|
  {
    AlignWhole(|data + bytes|);
  }

  lemma EndBit(data: seq<Byte>, bytes: seq<Byte>, n: nat)
    requires Align(8 * |data|) <= 8 * |data| && n < 8 * |data + bytes| && n < 8 * |PutBits(data, 8 * |data|, AllBits(bytes))|
    ensures Bit(PutBits(data, 8 * |data|, AllBits(bytes)), n) == Bit(data + bytes, n)
  {
    hide Bit, PutBits, Align, Cleared;
    PutBitsAt(data, 8 * |data|, AllBits(bytes), n);
    if n < 8 * |data| {
      EarlierBit(data, bytes, n);
    } else {
      ByteShift(data, bytes, n - 8 * |data|);
    }
  }

  lemma EarlierBit(data: seq<Byte>, bytes: seq<Byte>, n: nat)
    requires n < 8 * |data|
    ensures Bit(data + bytes, n) == Bit(data, n)
  {}

  method AddVL(s: MemStream, v: nat, ghost base: seq<Byte>, ghost img: seq<Byte>)
    requires s.Valid() && Grown(s, base, img) && v < 0x1_0000_0000
    modifies s
    ensures s.Valid() && Grown(s, base, img + VLBytes(v)) && s.ReadAt() == old(s.ReadAt())
  {
    hide VLBytes, VLBits, PutBits, Align, Bit;
    VLBytesBits(v);
    PutAtEnd(s.Data(), VLBytes(v));
    s.PutU32VL(v);
    assert base + img + VLBytes(v) == base + (img + VLBytes(v));
  }

  /** What comes next in the stream. */
  ghost predicate Ahead(s: MemStream, bytes: seq<Byte>)
    reads s
  {
    s.Valid() && var k := Align(s.ReadAt()) / 8; k <= |s.Data()| && bytes <= s.Data()[k..]
  }

  lemma AheadSplit(s: MemStream, a: seq<Byte>, b: seq<Byte>)
    requires Ahead(s, a + b)
    ensures var k := Align(s.ReadAt()) / 8;
            k + |a| <= |s.Data()| && s.Data()[k..k + |a|] == a && b <= s.Data()[k + |a|..]
  {
    var k := Align(s.ReadAt()) / 8;
    var rest := s.Data()[k..];
    assert rest[..|a + b|] == a + b;
    assert s.Data()[k..k + |a|] == rest[..|a|] == (a + b)[..|a|] == a;
    assert s.Data()[k + |a|..] == rest[|a|..];
    assert rest[|a|..][..|b|] == (a + b)[|a|..];
  }

  /** So many bytes have been read, and nothing else has changed. */
  twostate predicate Advanced(s: MemStream, n: nat)
    reads s
  {
    old(s.Valid()) && s.Valid() && s.Data() == old(s.Data()) && s.ReadAt() == Align(old(s.ReadAt())) + 8 * n
  }

  method NextU8(s: MemStream, ghost v: nat, ghost rest: seq<Byte>) returns (r: nat)
    requires v < 0x100 && Ahead(s, [ByteOf(v)] + rest)
    modifies s
    ensures r == v && Ahead(s, rest) && Advanced(s, 1)
  {
    hide ByteOf, ByteValue, Align;
    AheadSplit(s, [ByteOf(v)], rest);
    ByteRound(v);
    AlignWhole(Align(s.ReadAt()) / 8 + 1);
    r := s.GetU8();
  }

  method NextU16(s: MemStream, ghost v: nat, ghost rest: seq<Byte>) returns (r: nat)
    requires v < 0x1_0000 && Ahead(s, U16Bytes(v) + rest)
    modifies s
    ensures r == v && Ahead(s, rest) && Advanced(s, 2)
  {
    hide U16Bytes, Align;
    AheadSplit(s, U16Bytes(v), rest);
    AlignWhole(Align(s.ReadAt()) / 8 + 2);
    r := s.GetU16();
  }

  method NextU32(s: MemStream, ghost v: nat, ghost rest: seq<Byte>) returns (r: nat)
    requires v < 0x1_0000_0000 && Ahead(s, U32Bytes(v) + rest)
    modifies s
    ensures r == v && Ahead(s, rest) && Advanced(s, 4)
  {
    hide U32Bytes, Align;
    AheadSplit(s, U32Bytes(v), rest);
    AlignWhole(Align(s.ReadAt()) / 8 + 4);
    r := s.GetU32();
  }

  lemma NextAre(s: MemStream, bytes: seq<Byte>)
    requires Ahead(s, bytes)
    ensures s.Valid() && var k := Align(s.ReadAt()) / 8; k + |bytes| <= |s.Data()| && s.Data()[k..k + |bytes|] == bytes
  {
    assert bytes + [] == bytes;
    AheadSplit(s, bytes, []);
  }

  method NextVL(s: MemStream, ghost v: nat, ghost rest: seq<Byte>) returns (r: nat)
    requires v < 0x1_0000_0000 && Ahead(s, VLBytes(v) + rest) && s.ReadAt() % 8 == 0
    modifies s
    ensures r == v && Ahead(s, rest) && Advanced(s, |VLBytes(v)|)
  {
    hide VLBytes, VLBits, Align, Bit;
    ghost var k, n := Align(s.ReadAt()) / 8, |VLBytes(v)|;
    AheadSplit(s, VLBytes(v), rest);
    AlignWhole(s.ReadAt() / 8);
    AlignWhole(k + n);
    VLBytesBits(v);
    BytesAre(s.Data(), k, VLBytes(v));
    r := s.GetU32VL(v);
  }

  /** Bytes found in place are held as bits. */
  lemma BytesAre(data: seq<Byte>, k: nat, bytes: seq<Byte>)
    requires k + |bytes| <= |data| && data[k..k + |bytes|] == bytes
    ensures Holds(data, 8 * k, AllBits(bytes))
  {
    hide BitOf;
    forall n | 0 <= n < 8 * |bytes|
      ensures Bit(data, 8 * k + n) == Bit(bytes, n)
    {
      assert bytes[n / 8] == data[k + n / 8];
    }
  }

  method NextBytes(s: MemStream, count: nat, ghost bytes: seq<Byte>, ghost rest: seq<Byte>) returns (r: seq<Byte>)
    requires count == |bytes| && Ahead(s, bytes + rest)
    modifies s
    ensures r == bytes && Ahead(s, rest) && Advanced(s, count)
  {
    hide Align;
    AheadSplit(s, bytes, rest);
    AlignWhole(Align(s.ReadAt()) / 8 + count);
    r := s.GetBytes(count);
  }
}
