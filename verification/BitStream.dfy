/** Bits packed into bytes, least significant first (memstream.c): what writing at any bit position
    does to the bytes already there, and what reading gives back. */
module BitStream {
  import opened Wrappers

  type Byte = bv8

  // ----- one byte ---------------------------------------------------------------------------

  function Mask(i: nat): Byte
    requires i < 8
  {
    match i
    case 0 => 0x01
    case 1 => 0x02
    case 2 => 0x04
    case 3 => 0x08
    case 4 => 0x10
    case 5 => 0x20
    case 6 => 0x40
    case 7 => 0x80
  }

  function BitOf(b: Byte, i: nat): bool
    requires i < 8
  {
    b & Mask(i) != 0
  }

  function SetBit(b: Byte, i: nat, v: bool): Byte
    requires i < 8
  {
    if v then b | Mask(i) else b & !Mask(i)
  }

  lemma SetBitAt(b: Byte, i: nat, v: bool, j: nat)
    requires i < 8 && j < 8
    ensures BitOf(SetBit(b, i, v), j) == if j == i then v else BitOf(b, j)
  {}

  /** Bit `i` is the one of weight 2 to the `i`. */
  lemma BitWeight(b: Byte, i: nat)
    requires i < 8
    ensures BitOf(b, i) == ((b >> i) & 1 == 1)
  {}

  lemma NoBits(j: nat)
    requires j < 8
    ensures !BitOf(0, j)
  {}

  lemma SameBits(a: Byte, b: Byte)
    requires forall j :: 0 <= j < 8 ==> BitOf(a, j) == BitOf(b, j)
    ensures a == b
  {
    assert BitOf(a, 0) == BitOf(b, 0) && BitOf(a, 1) == BitOf(b, 1) && BitOf(a, 2) == BitOf(b, 2) && BitOf(a, 3) == BitOf(b, 3);
    assert BitOf(a, 4) == BitOf(b, 4) && BitOf(a, 5) == BitOf(b, 5) && BitOf(a, 6) == BitOf(b, 6) && BitOf(a, 7) == BitOf(b, 7);
  }

  /** The first `n` bits of `b`, the others cleared. */
  function LowBits(b: Byte, n: nat): Byte
    requires n < 8
  {
    match n
    case 0 => 0
    case 1 => b & 0x01
    case 2 => b & 0x03
    case 3 => b & 0x07
    case 4 => b & 0x0F
    case 5 => b & 0x1F
    case 6 => b & 0x3F
    case 7 => b & 0x7F
  }

  lemma LowBitsAt(b: Byte, n: nat, j: nat)
    requires n < 8 && j < 8
    ensures BitOf(LowBits(b, n), j) == (j < n && BitOf(b, j))
  {}

  // ----- numbers as bits --------------------------------------------------------------------

  function Pow2(n: nat): nat {
    if n == 0 then 1 else 2 * Pow2(n - 1)
  }

  /** The low `n` bits of `v`, least significant first. */
  function ValBits(n: nat, v: nat): (bs: seq<bool>)
    ensures |bs| == n
  {
    if n == 0 then [] else [v % 2 == 1] + ValBits(n - 1, v / 2)
  }

  function Value(bs: seq<bool>): nat {
    if bs == [] then 0 else (if bs[0] then 1 else 0) + 2 * Value(bs[1..])
  }

  lemma {:induction false} ValueOfBits(n: nat, v: nat)
    requires v < Pow2(n)
    ensures Value(ValBits(n, v)) == v
  {
    if n > 0 {
      ValueOfBits(n - 1, v / 2);
      assert ValBits(n, v)[1..] == ValBits(n - 1, v / 2);
    }
  }

  /** Another bit counts as the next power of two. */
  lemma {:induction false} ValueMore(bs: seq<bool>, v: bool)
    ensures Value(bs + [v]) == Value(bs) + if v then Pow2(|bs|) else 0
  {
    if bs == [] {
      assert [v][1..] == [];
    } else {
      ValueMore(bs[1..], v);
      assert (bs + [v])[1..] == bs[1..] + [v];
    }
  }

  function Pack(bs: seq<bool>): Byte
    requires |bs| == 8
  {
    SetBit(SetBit(SetBit(SetBit(SetBit(SetBit(SetBit(SetBit(0, 0, bs[0]), 1, bs[1]), 2, bs[2]), 3, bs[3]), 4, bs[4]), 5, bs[5]),
           6, bs[6]), 7, bs[7])
  }

  function ByteBits(b: Byte): (bs: seq<bool>)
    ensures |bs| == 8 && forall j :: 0 <= j < 8 ==> bs[j] == BitOf(b, j)
  {
    seq(8, j requires 0 <= j < 8 => BitOf(b, j))
  }

  function ByteOf(v: nat): Byte {
    Pack(ValBits(8, v))
  }

  function ByteValue(b: Byte): nat {
    Value(ByteBits(b))
  }

  lemma PackBits(bs: seq<bool>)
    requires |bs| == 8
    ensures ByteBits(Pack(bs)) == bs
  {
    forall j | 0 <= j < 8
      ensures BitOf(Pack(bs), j) == bs[j]
    {
      PackAt(bs, j);
    }
  }

  lemma PackAt(bs: seq<bool>, j: nat)
    requires |bs| == 8 && j < 8
    ensures BitOf(Pack(bs), j) == bs[j]
  {
    hide SetBit, BitOf;
    NoBits(j);
    var b0 := SetBit(0, 0, bs[0]);
    var b1 := SetBit(b0, 1, bs[1]);
    var b2 := SetBit(b1, 2, bs[2]);
    var b3 := SetBit(b2, 3, bs[3]);
    var b4 := SetBit(b3, 4, bs[4]);
    var b5 := SetBit(b4, 5, bs[5]);
    var b6 := SetBit(b5, 6, bs[6]);
    SetBitAt(0, 0, bs[0], j);
    SetBitAt(b0, 1, bs[1], j);
    SetBitAt(b1, 2, bs[2], j);
    SetBitAt(b2, 3, bs[3], j);
    SetBitAt(b3, 4, bs[4], j);
    SetBitAt(b4, 5, bs[5], j);
    SetBitAt(b5, 6, bs[6], j);
    SetBitAt(b6, 7, bs[7], j);
  }

  lemma ByteRound(v: nat)
    requires v < 256
    ensures ByteValue(ByteOf(v)) == v
  {
    PackBits(ValBits(8, v));
    assert Pow2(8) == 256;
    ValueOfBits(8, v);
  }

  // ----- many bytes -------------------------------------------------------------------------

  /** Bit `n` of the data. */
  function Bit(data: seq<Byte>, n: nat): bool
    requires n < 8 * |data|
  {
    BitOf(data[n / 8], n % 8)
  }

  /** The byte with its low `i` bits shifted out. */
  function Halved(b: Byte, i: nat): Byte {
    if i == 0 then b else Halved(b, i - 1) >> 1
  }

  /** The value of a byte is that of its bits. */
  lemma ByteValueIs(b: Byte)
    ensures ByteValue(b) == b as nat
  {
    hide BitOf;
    ValueFrom(b, 0);
    assert ByteBits(b)[0..] == ByteBits(b);
  }

  lemma {:induction false} ValueFrom(b: Byte, i: nat)
    requires i <= 8
    ensures Value(ByteBits(b)[i..]) == Halved(b, i) as nat
    decreases 8 - i
  {
    hide BitOf, ByteBits, Value, Halved;
    if i < 8 {
      ValueFrom(b, i + 1);
      FirstBit(b, i);
      HalvedMore(b, i);
      HalvedBit(b, i);
    } else {
      NoneLeft(b);
    }
  }

  lemma FirstBit(b: Byte, i: nat)
    requires i < 8
    ensures Value(ByteBits(b)[i..]) == (if BitOf(b, i) then 1 else 0) + 2 * Value(ByteBits(b)[i + 1..])
  {
    assert ByteBits(b)[i..][1..] == ByteBits(b)[i + 1..];
  }

  lemma HalvedMore(b: Byte, i: nat)
    ensures Halved(b, i) as nat == (if Halved(b, i) & 1 == 1 then 1 else 0) + 2 * (Halved(b, i + 1) as nat)
  {
    Halves(Halved(b, i));
  }

  lemma Halves(c: Byte)
    ensures c as nat == (if c & 1 == 1 then 1 else 0) + 2 * ((c >> 1) as nat)
  {}

  lemma HalvedBit(b: Byte, i: nat)
    requires i < 8
    ensures BitOf(b, i) == (Halved(b, i) & 1 == 1)
  {
    FourHalved(b);
    FourHalved(Halved(b, 4));
    HalvedTwice(b);
  }

  lemma FourHalved(b: Byte)
    ensures Halved(b, 1) == b >> 1 && Halved(b, 2) == (b >> 1) >> 1 && Halved(b, 3) == ((b >> 1) >> 1) >> 1
    ensures Halved(b, 4) == (((b >> 1) >> 1) >> 1) >> 1
  {}

  lemma HalvedTwice(b: Byte)
    ensures forall j :: 0 <= j <= 4 ==> Halved(b, 4 + j) == Halved(Halved(b, 4), j)
  {
    hide Halved;
    HalvedOn(b, 0);
    HalvedOn(b, 1);
    HalvedOn(b, 2);
    HalvedOn(b, 3);
    HalvedOn(b, 4);
  }

  lemma {:induction false} HalvedOn(b: Byte, j: nat)
    ensures Halved(b, 4 + j) == Halved(Halved(b, 4), j)
  {
    if j > 0 {
      HalvedOn(b, j - 1);
    }
  }

  lemma NoneLeft(b: Byte)
    ensures Value(ByteBits(b)[8..]) == 0 && Halved(b, 8) as nat == 0
  {
    FourHalved(b);
    FourHalved(Halved(b, 4));
    HalvedTwice(b);
  }

  lemma ByteOfIs(v: nat)
    requires v < 256
    ensures ByteOf(v) as nat == v
  {
    hide ByteOf, ByteValue;
    ByteRound(v);
    ByteValueIs(ByteOf(v));
  }

  /** The next byte boundary. */
  function Align(i: nat): (a: nat)
    ensures i <= a < i + 8 && a % 8 == 0
  {
    (i + 7) / 8 * 8
  }

  /** putOneBit: the first bit of a byte clears the rest of it, or adds a byte at the end. */
  function PutBit(data: seq<Byte>, i: nat, v: bool): (r: seq<Byte>)
    requires Align(i) <= 8 * |data|
    ensures |r| == (if i == 8 * |data| then |data| + 1 else |data|) && Align(i + 1) <= 8 * |r|
  {
    var k := i / 8;
    var b := SetBit(if i % 8 == 0 then 0 else data[k], i % 8, v);
    if k == |data| then data + [b] else data[k := b]
  }

  lemma PutBitAt(data: seq<Byte>, i: nat, v: bool, n: nat)
    requires Align(i) <= 8 * |data| && n < 8 * |PutBit(data, i, v)|
    ensures Bit(PutBit(data, i, v), n) ==
            if n == i then v
            else if i % 8 == 0 && i < n < i + 8 then false
            else n < 8 * |data| && Bit(data, n)
  {
    hide SetBit, BitOf;
    NoBits(n % 8);
    SetBitAt(0, i % 8, v, n % 8);
    if i % 8 != 0 { SetBitAt(data[i / 8], i % 8, v, n % 8); }
  }

  /** Bits put down one after another from position `i`. */
  function PutBits(data: seq<Byte>, i: nat, bs: seq<bool>): (r: seq<Byte>)
    requires Align(i) <= 8 * |data|
    ensures |r| >= |data| && Align(i + |bs|) <= 8 * |r|
    ensures |r| == if 8 * |data| < Align(i + |bs|) then Align(i + |bs|) / 8 else |data|
    decreases |bs|
  {
    if bs == [] then data else PutBit(PutBits(data, i, bs[..|bs| - 1]), i + |bs| - 1, bs[|bs| - 1])
  }

  /** Everything before position `i` stays, the bits are where they were put, the rest of the byte
      they end in is cleared unless they were all put into a byte begun before, and what lies
      further on stays. */
  lemma {:induction false} PutBitsAt(data: seq<Byte>, i: nat, bs: seq<bool>, n: nat)
    requires Align(i) <= 8 * |data| && n < 8 * |PutBits(data, i, bs)|
    ensures Bit(PutBits(data, i, bs), n) ==
            if i <= n < i + |bs| then bs[n - i]
            else if i + |bs| <= n && Cleared(i, |bs|, n) then false
            else n < 8 * |data| && Bit(data, n)
    decreases |bs|
  {
    hide PutBits, PutBit, Bit, Align, Cleared;
    if bs == [] {
      PutNothing(data, i);
      ClearsNothing(i, n);
    } else {
      var m := |bs| - 1;
      PutBitsLast(data, i, bs);
      var before := PutBits(data, i, bs[..m]);
      PutBitAt(before, i + m, bs[m], n);
      if n > i + m { ClearedMore(i, m, n); }
      if n < 8 * |before| {
        PutBitsAt(data, i, bs[..m], n);
      } else {
        assert n >= 8 * |data|;
      }
    }
  }

  /** After `m` bits from position `i`: is `n` in the rest of a byte begun by them? */
  predicate Cleared(i: nat, m: nat, n: nat) {
    m > 0 && n < Align(i + m) && (i % 8 == 0 || Align(i) < i + m)
  }

  lemma ClearsNothing(i: nat, n: nat)
    ensures !Cleared(i, 0, n)
  {}

  lemma ClearedMore(i: nat, m: nat, n: nat)
    requires n > i + m
    ensures Cleared(i, m + 1, n) <==> Cleared(i, m, n) || ((i + m) % 8 == 0 && n < i + m + 8)
  {
    hide Align;
    AlignStep(i + m);
    AlignStep(i);
  }

  lemma AlignStep(i: nat)
    ensures Align(i + 1) == if i % 8 == 0 then i + 8 else Align(i)
    ensures i % 8 == 0 ==> Align(i) == i
  {}

  lemma PutBitsLast(data: seq<Byte>, i: nat, bs: seq<bool>)
    requires Align(i) <= 8 * |data| && bs != []
    ensures PutBits(data, i, bs) == PutBit(PutBits(data, i, bs[..|bs| - 1]), i + |bs| - 1, bs[|bs| - 1])
  {}

  lemma PutNothing(data: seq<Byte>, i: nat)
    requires Align(i) <= 8 * |data|
    ensures PutBits(data, i, []) == data
  {}

  lemma LastOfBoth(a: seq<bool>, b: seq<bool>)
    requires b != []
    ensures (a + b)[..|a + b| - 1] == a + b[..|b| - 1] && (a + b)[|a + b| - 1] == b[|b| - 1] && |a + b| == |a| + |b|
  {}

  lemma {:induction false} PutBitsConcat(data: seq<Byte>, i: nat, a: seq<bool>, b: seq<bool>)
    requires Align(i) <= 8 * |data|
    ensures PutBits(data, i, a + b) == PutBits(PutBits(data, i, a), i + |a|, b)
    decreases |b|
  {
    hide PutBits, PutBit, Align;
    if b == [] {
      assert a + b == a;
      PutNothing(PutBits(data, i, a), i + |a|);
    } else {
      PutBitsConcat(data, i, a, b[..|b| - 1]);
      PutBitsLast(data, i, a + b);
      LastOfBoth(a, b);
      PutBitsLast(PutBits(data, i, a), i + |a|, b);
    }
  }

  /** The data hold the bits `bs` from position `i` on. */
  ghost predicate Holds(data: seq<Byte>, i: nat, bs: seq<bool>) {
    i + |bs| <= 8 * |data| && forall k :: 0 <= k < |bs| ==> Bit(data, i + k) == bs[k]
  }

  lemma HoldsPart(data: seq<Byte>, i: nat, bs: seq<bool>, a: nat, b: nat)
    requires Holds(data, i, bs) && a <= b <= |bs|
    ensures Holds(data, i + a, bs[a..b])
  {
    hide Bit;
    forall k | 0 <= k < b - a
      ensures Bit(data, i + a + k) == bs[a..b][k]
    {
      assert Bit(data, i + (a + k)) == bs[a + k];
    }
  }

  lemma HoldsSplit(data: seq<Byte>, i: nat, a: seq<bool>, b: seq<bool>)
    requires Holds(data, i, a + b)
    ensures Holds(data, i, a) && Holds(data, i + |a|, b)
  {
    HoldsPart(data, i, a + b, 0, |a|);
    HoldsPart(data, i, a + b, |a|, |a| + |b|);
    assert (a + b)[0..|a|] == a && (a + b)[|a|..|a| + |b|] == b;
  }

  /** Writing keeps what was held before the position and holds what was written. */
  lemma PutHolds(data: seq<Byte>, i: nat, bs: seq<bool>, before: seq<bool>)
    requires Align(i) <= 8 * |data| && Holds(data, 0, before) && |before| == i
    ensures Holds(PutBits(data, i, bs), 0, before + bs)
  {
    hide Bit, PutBits;
    var r := PutBits(data, i, bs);
    forall k | 0 <= k < i + |bs|
      ensures Bit(r, k) == (before + bs)[k]
    {
      PutBitsAt(data, i, bs, k);
      if k < i { assert Bit(data, 0 + k) == before[k]; }
    }
  }

  /** The rest of the byte a run of seven bits or more ends in is clear. */
  lemma TailClear(data: seq<Byte>, i: nat, bs: seq<bool>)
    requires Align(i) <= 8 * |data| && |bs| >= 7
    ensures forall n :: i + |bs| <= n < Align(i + |bs|) ==> !Bit(PutBits(data, i, bs), n)
  {
    hide Bit, PutBits;
    forall n: nat | i + |bs| <= n < Align(i + |bs|)
      ensures !Bit(PutBits(data, i, bs), n)
    {
      PutBitsAt(data, i, bs, n);
    }
  }

  lemma SameBytes(a: seq<Byte>, b: seq<Byte>)
    requires |a| == |b| && forall n :: 0 <= n < 8 * |a| ==> Bit(a, n) == Bit(b, n)
    ensures a == b
  {
    hide BitOf;
    forall m | 0 <= m < |a|
      ensures a[m] == b[m]
    {
      forall j | 0 <= j < 8
        ensures BitOf(a[m], j) == BitOf(b[m], j)
      {
        assert Bit(a, 8 * m + j) == Bit(b, 8 * m + j);
      }
      SameBits(a[m], b[m]);
    }
  }

  function AllBits(bytes: seq<Byte>): (bs: seq<bool>)
    ensures |bs| == 8 * |bytes| && forall n :: 0 <= n < |bs| ==> bs[n] == Bit(bytes, n)
  {
    seq(8 * |bytes|, n requires 0 <= n < 8 * |bytes| => Bit(bytes, n))
  }

  function Zeros(n: nat): (bs: seq<bool>)
    ensures |bs| == n && forall k :: 0 <= k < n ==> !bs[k]
  {
    seq(n, _ => false)
  }

  /** Bytes go behind the byte begun last, and cut off whatever followed. */
  lemma BytesHold(data: seq<Byte>, i: nat, before: seq<bool>, bytes: seq<Byte>)
    requires Align(i) <= 8 * |data| && Holds(data, 0, before) && |before| == i
    requires forall n :: i <= n < Align(i) ==> !Bit(data, n)
    ensures Holds(data[..Align(i) / 8] + bytes, 0, before + Zeros(Align(i) - i) + AllBits(bytes))
  {
    hide BitOf;
    var r, all := data[..Align(i) / 8] + bytes, before + Zeros(Align(i) - i) + AllBits(bytes);
    forall k | 0 <= k < |all|
      ensures Bit(r, 0 + k) == all[k]
    {
      if k < Align(i) {
        assert Bit(r, k) == Bit(data, k);
        if k < i { assert Bit(data, 0 + k) == before[k]; }
      } else {
        ByteShift(data[..Align(i) / 8], bytes, k - Align(i));
      }
    }
  }

  lemma ByteShift(a: seq<Byte>, b: seq<Byte>, n: nat)
    requires n < 8 * |b|
    ensures Bit(a + b, 8 * |a| + n) == Bit(b, n)
  {}

  /** Data that hold the bits of some bytes at a boundary have those bytes there. */
  lemma HeldBytes(data: seq<Byte>, k: nat, bytes: seq<Byte>)
    requires Holds(data, 8 * k, AllBits(bytes))
    ensures k + |bytes| <= |data| && data[k..k + |bytes|] == bytes
  {
    hide BitOf;
    forall m | 0 <= m < |bytes|
      ensures data[k + m] == bytes[m]
    {
      forall j | 0 <= j < 8
        ensures BitOf(data[k + m], j) == BitOf(bytes[m], j)
      {
        assert Bit(data, 8 * k + (8 * m + j)) == AllBits(bytes)[8 * m + j];
      }
      SameBits(data[k + m], bytes[m]);
    }
  }

  // ----- numbers of variable length ---------------------------------------------------------

  /** Seven bits at a time, the eighth saying that more follow. */
  function VLBits(v: nat): (bs: seq<bool>)
    ensures |bs| % 8 == 0 && |bs| >= 8
    decreases v
  {
    if v < 128 then ValBits(8, v) else ValBits(8, v % 128 + 128) + VLBits(v / 128)
  }

  // ----- the hash ---------------------------------------------------------------------------

  /** The bytes getHash looks at: those before position `i`, the last one without the bits from
      `i` on. */
  function HashedBytes(data: seq<Byte>, i: nat): seq<Byte>
    requires i <= 8 * |data|
  {
    data[..i / 8] + if i % 8 == 0 then [] else [LowBits(data[i / 8], i % 8)]
  }

  /** What the hash sees depends on the bits before the position only. */
  lemma SameHashedBytes(a: seq<Byte>, b: seq<Byte>, bs: seq<bool>)
    requires Holds(a, 0, bs) && Holds(b, 0, bs)
    ensures HashedBytes(a, |bs|) == HashedBytes(b, |bs|)
  {
    hide BitOf, LowBits;
    var i := |bs|;
    forall m | 0 <= m < i / 8
      ensures a[m] == b[m]
    {
      forall j | 0 <= j < 8
        ensures BitOf(a[m], j) == BitOf(b[m], j)
      {
        assert Bit(a, 0 + (8 * m + j)) == bs[8 * m + j] == Bit(b, 0 + (8 * m + j));
      }
      SameBits(a[m], b[m]);
    }
    if i % 8 != 0 {
      var m := i / 8;
      forall j | 0 <= j < 8
        ensures BitOf(LowBits(a[m], i % 8), j) == BitOf(LowBits(b[m], i % 8), j)
      {
        LowBitsAt(a[m], i % 8, j);
        LowBitsAt(b[m], i % 8, j);
        if j < i % 8 {
          assert Bit(a, 0 + (8 * m + j)) == bs[8 * m + j] == Bit(b, 0 + (8 * m + j));
        }
      }
      SameBits(LowBits(a[m], i % 8), LowBits(b[m], i % 8));
    }
  }
}
