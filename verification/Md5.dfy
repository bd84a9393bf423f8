/** The message digest (md5.c) against RFC 1321: sections 3.1 and 3.2 for padding and length, 3.3
    and 3.4 for the registers and rounds, 3.5 for the output. */
module Md5 {
  type Byte = bv8
  type Word = bv32

  // ----- the standard -----------------------------------------------------------------------

  const START: seq<Word> := [0x67452301, 0xefcdab89, 0x98badcfe, 0x10325476]

  /** The auxiliary functions F, G, H and I of the four rounds. */
  function Mix(round: nat, x: Word, y: Word, z: Word): Word {
    if round == 0 then (x & y) | (!x & z)
    else if round == 1 then (x & z) | (y & !z)
    else if round == 2 then x ^ y ^ z
    else y ^ (x | !z)
  }

  /** The table of sines, sixteen to a round. */
  const K: seq<seq<Word>> := [
    [0xd76aa478, 0xe8c7b756, 0x242070db, 0xc1bdceee, 0xf57c0faf, 0x4787c62a, 0xa8304613, 0xfd469501,
     0x698098d8, 0x8b44f7af, 0xffff5bb1, 0x895cd7be, 0x6b901122, 0xfd987193, 0xa679438e, 0x49b40821],
    [0xf61e2562, 0xc040b340, 0x265e5a51, 0xe9b6c7aa, 0xd62f105d, 0x02441453, 0xd8a1e681, 0xe7d3fbc8,
     0x21e1cde6, 0xc33707d6, 0xf4d50d87, 0x455a14ed, 0xa9e3e905, 0xfcefa3f8, 0x676f02d9, 0x8d2a4c8a],
    [0xfffa3942, 0x8771f681, 0x6d9d6122, 0xfde5380c, 0xa4beea44, 0x4bdecfa9, 0xf6bb4b60, 0xbebfbc70,
     0x289b7ec6, 0xeaa127fa, 0xd4ef3085, 0x04881d05, 0xd9d4d039, 0xe6db99e5, 0x1fa27cf8, 0xc4ac5665],
    [0xf4292244, 0x432aff97, 0xab9423a7, 0xfc93a039, 0x655b59c3, 0x8f0ccc92, 0xffeff47d, 0x85845dd1,
     0x6fa87e4f, 0xfe2ce6e0, 0xa3014314, 0x4e0811a1, 0xf7537e82, 0xbd3af235, 0x2ad7d2bb, 0xeb86d391]]

  /** The circular shifts of a round, four by four. */
  const SHIFTS: seq<seq<Word>> := [[7, 12, 17, 22], [5, 9, 14, 20], [4, 11, 16, 23], [6, 10, 15, 21]]

  /** The order in which a round takes the words of the block. */
  const ORDER: seq<seq<nat>> := [
    [0, 1, 2, 3, 4, 5, 6, 7, 8, 9, 10, 11, 12, 13, 14, 15],
    [1, 6, 11, 0, 5, 10, 15, 4, 9, 14, 3, 8, 13, 2, 7, 12],
    [5, 8, 11, 14, 1, 4, 7, 10, 13, 0, 3, 6, 9, 12, 15, 2],
    [0, 7, 14, 5, 12, 3, 10, 1, 8, 15, 6, 13, 4, 11, 2, 9]]

  function TableK(n: nat): Word
    requires n < 64
  {
    K[n / 16][n % 16]
  }

  function Shift(n: nat): (s: Word)
    requires n < 64
    ensures s < 32
  {
    SHIFTS[n / 16][n % 4]
  }

  function WordIndex(n: nat): (k: nat)
    requires n < 64
    ensures k < 16
  {
    ORDER[n / 16][n % 16]
  }

  function Add(x: Word, y: Word): Word { x + y }

  function Sum(a: Word, b: Word, c: Word, d: Word): Word { a + b + c + d }

  function OneLeft(x: Word): Word { (x << 1) | (x >> 31) }

  /** A circular shift, one bit after the other. */
  function Circular(x: Word, n: Word): Word
    decreases n
  {
    if n == 0 then x else OneLeft(Circular(x, n - 1))
  }

  /** rotateLeft. */
  function RotateLeft(x: Word, n: Word): Word
    requires n <= 32
  {
    (x << n) | (x >> (32 - n))
  }

  lemma {:induction false} RotateIs(x: Word, n: Word)
    requires n < 32
    ensures RotateLeft(x, n) == Circular(x, n)
    decreases n
  {
    hide RotateLeft, OneLeft;
    if n == 0 {
      NotTurned(x);
    } else {
      RotateIs(x, n - 1);
      OneFurther(x, n - 1);
      assert n - 1 + 1 == n;
    }
  }

  lemma NotTurned(x: Word)
    ensures RotateLeft(x, 0) == x
  {}

  lemma OneFurther(x: Word, n: Word)
    requires n < 31
    ensures RotateLeft(x, n + 1) == OneLeft(RotateLeft(x, n))
  {
    ShiftFurther(x, n, (x << n) | (x >> (32 - n)));
  }

  lemma ShiftFurther(x: Word, n: Word, y: Word)
    requires n < 31 && y == (x << n) | (x >> (32 - n))
    ensures (x << (n + 1)) | (x >> (32 - (n + 1))) == (y << 1) | (y >> 31)
  {}

  /** The operations work on the registers ABCD, DABC, CDAB and BCDA in turn. */
  const PLACES: seq<seq<nat>> := [[0, 1, 2, 3], [3, 0, 1, 2], [2, 3, 0, 1], [1, 2, 3, 0]]

  function Place(n: nat, i: nat): (p: nat)
    requires i < 4
    ensures p < 4
  {
    PLACES[n % 4][i]
  }

  /** [abcd k s i]: a = b + ((a + Mix(b, c, d) + X[k] + T[i]) <<< s). */
  function Operation(r: seq<Word>, x: seq<Word>, n: nat): (r': seq<Word>)
    requires |r| == 4 && |x| == 16 && n < 64
    ensures |r'| == 4
  {
    var a, b, c, d := r[Place(n, 0)], r[Place(n, 1)], r[Place(n, 2)], r[Place(n, 3)];
    r[Place(n, 0) := Add(b, Circular(Sum(a, Mix(n / 16, b, c, d), x[WordIndex(n)], TableK(n)), Shift(n)))]
  }

  function Operations(r: seq<Word>, x: seq<Word>, n: nat): (r': seq<Word>)
    requires |r| == 4 && |x| == 16 && n <= 64
    ensures |r'| == 4
  {
    if n == 0 then r else Operation(Operations(r, x, n - 1), x, n - 1)
  }

  function Block(r: seq<Word>, x: seq<Word>): (r': seq<Word>)
    requires |r| == 4 && |x| == 16
    ensures |r'| == 4
  {
    var s := Operations(r, x, 64);
    [Add(r[0], s[0]), Add(r[1], s[1]), Add(r[2], s[2]), Add(r[3], s[3])]
  }

  function WordOf(b0: Byte, b1: Byte, b2: Byte, b3: Byte): Word {
    ((b3 as Word) << 24) | ((b2 as Word) << 16) | ((b1 as Word) << 8) | (b0 as Word)
  }

  function WordBytes(w: Word): (bs: seq<Byte>)
    ensures |bs| == 4
  {
    [(w & 0xFF) as Byte, ((w & 0xFF00) >> 8) as Byte, ((w & 0xFF_0000) >> 16) as Byte, ((w & 0xFF00_0000) >> 24) as Byte]
  }

  lemma WordRound(w: Word)
    ensures WordOf(WordBytes(w)[0], WordBytes(w)[1], WordBytes(w)[2], WordBytes(w)[3]) == w
  {}

  function Words(s: seq<Byte>): (x: seq<Word>)
    requires |s| % 4 == 0
    ensures |x| == |s| / 4
  {
    seq(|s| / 4, j requires 0 <= j < |s| / 4 => WordOf(s[4 * j], s[4 * j + 1], s[4 * j + 2], s[4 * j + 3]))
  }

  /** The registers after whole blocks. */
  function Blocks(s: seq<Byte>): (r: seq<Word>)
    requires |s| % 64 == 0
    ensures |r| == 4
  {
    if s == [] then START else Block(Blocks(s[..|s| - 64]), Words(s[|s| - 64..]))
  }

  /** From 1 to 64 bytes, up to 8 short of a whole block. */
  function PadLength(n: nat): (p: nat)
    ensures 1 <= p <= 64 && (n + p) % 64 == 56
  {
    (119 - n % 64) % 64 + 1
  }

  function Padding(p: nat): (s: seq<Byte>)
    requires p > 0
    ensures |s| == p
  {
    [0x80] + seq(p - 1, _ => 0)
  }

  function LowWord(n: nat): Word { (n % 0x1_0000_0000) as Word }

  /** The length in bits, its low 64 bits, the lower word first. */
  function LengthBytes(n: nat): (s: seq<Byte>)
    ensures |s| == 8
  {
    WordBytes(LowWord(8 * n)) + WordBytes(LowWord(8 * n / 0x1_0000_0000))
  }

  lemma WholeBlocks(n: nat)
    requires n % 64 == 56
    ensures (n + 8) % 64 == 0
  {}

  function Padded(msg: seq<Byte>): (s: seq<Byte>)
    ensures |s| % 64 == 0
  {
    WholeBlocks(|msg| + PadLength(|msg|));
    msg + Padding(PadLength(|msg|)) + LengthBytes(|msg|)
  }

  function Digest(msg: seq<Byte>): (d: seq<Byte>)
    ensures |d| == 16
  {
    Output(Blocks(Padded(msg)))
  }

  /** Register by register, the low byte first. */
  function Output(r: seq<Word>): (s: seq<Byte>)
    ensures |s| == 4 * |r|
  {
    if r == [] then [] else Output(r[..|r| - 1]) + WordBytes(r[|r| - 1])
  }

  // ----- the rounds -------------------------------------------------------------------------

  lemma SameSum(a: Word, e: Word, k: Word, x: Word)
    ensures Sum(a, e, k, x) == Sum(a, e, x, k)
  {}

  lemma PlaceNext(n: nat)
    ensures Place(n + 1, 0) == Place(n, 3) && Place(n + 1, 1) == Place(n, 0)
    ensures Place(n + 1, 2) == Place(n, 1) && Place(n + 1, 3) == Place(n, 2)
    ensures Place(n, 0) != Place(n, 1) && Place(n, 0) != Place(n, 2) && Place(n, 0) != Place(n, 3)
  {
    assert (n + 1) % 4 == if n % 4 == 3 then 0 else n % 4 + 1;
  }

  lemma FirstPlaces(n: nat)
    requires n % 4 == 0
    ensures Place(n, 0) == 0 && Place(n, 1) == 1 && Place(n, 2) == 2 && Place(n, 3) == 3
  {}

  /** The source's own formulas for the order of the words. */
  function IndexOf(i: nat): (j: nat)
    requires i < 64
    ensures j < 16
  {
    if i / 16 == 0 then i else if i / 16 == 1 then (i * 5 + 1) % 16 else if i / 16 == 2 then (i * 3 + 5) % 16 else i * 7 % 16
  }

  lemma IndexIs(i: nat)
    requires i < 64
    ensures IndexOf(i) == WordIndex(i)
  {
    var k := i % 16;
    assert i == 16 * (i / 16) + k;
    FirstOrder(k);
    SecondOrder(k);
    ThirdOrder(k);
    FourthOrder(k);
  }

  lemma FirstOrder(k: nat)
    requires k < 16
    ensures k == ORDER[0][k]
  {}

  lemma SecondOrder(k: nat)
    requires k < 16
    ensures ((16 + k) * 5 + 1) % 16 == ORDER[1][k]
  {}

  lemma ThirdOrder(k: nat)
    requires k < 16
    ensures ((32 + k) * 3 + 5) % 16 == ORDER[2][k]
  {}

  lemma FourthOrder(k: nat)
    requires k < 16
    ensures (48 + k) * 7 % 16 == ORDER[3][k]
  {}

  /** The source's variables hold the operands of operation `n`. */
  predicate At(r: seq<Word>, n: nat, aa: Word, bb: Word, cc: Word, dd: Word)
    requires |r| == 4
  {
    aa == r[Place(n, 0)] && bb == r[Place(n, 1)] && cc == r[Place(n, 2)] && dd == r[Place(n, 3)]
  }

  lemma NoOperations(r: seq<Word>, x: seq<Word>)
    requires |r| == 4 && |x| == 16
    ensures At(Operations(r, x, 0), 0, r[0], r[1], r[2], r[3])
  {}

  lemma AllOperations(r: seq<Word>, x: seq<Word>, aa: Word, bb: Word, cc: Word, dd: Word)
    requires |r| == 4 && |x| == 16 && At(Operations(r, x, 64), 64, aa, bb, cc, dd)
    ensures Block(r, x) == [Add(r[0], aa), Add(r[1], bb), Add(r[2], cc), Add(r[3], dd)]
  {
    hide Operations, Add;
    FirstPlaces(64);
  }

  /** One turn of the source's loop is one operation, on variables that change names. */
  lemma OneOperation(r0: seq<Word>, x: seq<Word>, n: nat, aa: Word, bb: Word, cc: Word, dd: Word)
    requires |r0| == 4 && |x| == 16 && n < 64 && At(Operations(r0, x, n), n, aa, bb, cc, dd)
    ensures var e := Mix(n / 16, bb, cc, dd);
            At(Operations(r0, x, n + 1), n + 1, dd, Add(bb, RotateLeft(Sum(aa, e, TableK(n), x[IndexOf(n)]), Shift(n))), bb, cc)
  {
    hide Add, Sum, Place, Mix, TableK, Shift, Circular, WordIndex, IndexOf, RotateLeft;
    var e := Mix(n / 16, bb, cc, dd);
    IndexIs(n);
    PlaceNext(n);
    SameSum(aa, e, TableK(n), x[IndexOf(n)]);
    RotateIs(Sum(aa, e, TableK(n), x[IndexOf(n)]), Shift(n));
  }

  /** md5Step: four variables that change names stand for the registers worked on in turn. */
  method Md5Step(buffer: array<Word>, input: seq<Word>)
    requires buffer.Length == 4 && |input| == 16
    modifies buffer
    ensures buffer[..] == Block(old(buffer[..]), input)
  {
    hide *;
    ghost var r0 := buffer[..];
    var AA, BB, CC, DD := buffer[0], buffer[1], buffer[2], buffer[3];
    NoOperations(r0, input);
    var i := 0;
    while i < 64
      invariant i <= 64 && buffer[..] == r0 && At(Operations(r0, input, i), i, AA, BB, CC, DD)
    {
      var E := Mix(i / 16, BB, CC, DD);
      var j := IndexOf(i);
      OneOperation(r0, input, i, AA, BB, CC, DD);
      var temp := DD;
      DD := CC;
      CC := BB;
      BB := Add(BB, RotateLeft(Sum(AA, E, TableK(i), input[j]), Shift(i)));
      AA := temp;
      i := i + 1;
    }
    AllOperations(r0, input, AA, BB, CC, DD);
    buffer[0] := Add(buffer[0], AA);
    buffer[1] := Add(buffer[1], BB);
    buffer[2] := Add(buffer[2], CC);
    buffer[3] := Add(buffer[3], DD);
    assert buffer[..] == [Add(r0[0], AA), Add(r0[1], BB), Add(r0[2], CC), Add(r0[3], DD)];
  }

  // ----- the context ------------------------------------------------------------------------

  /** The blocks that are full, and what is left. */
  function Whole(s: seq<Byte>): (w: seq<Byte>)
    ensures |w| % 64 == 0
  {
    WholeSize(|s|);
    s[..|s| - |s| % 64]
  }

  function Rest(s: seq<Byte>): (r: seq<Byte>)
    ensures |r| == |s| % 64
  {
    s[|s| - |s| % 64..]
  }

  lemma WholeSize(n: nat)
    ensures (n - n % 64) % 64 == 0
  {}

  lemma NextByte(s: seq<Byte>, b: Byte)
    ensures if |s| % 64 == 63
            then Whole(s + [b]) == Whole(s) + (Rest(s) + [b]) && Rest(s + [b]) == []
            else Whole(s + [b]) == Whole(s) && Rest(s + [b]) == Rest(s) + [b]
  {
    NextPlace(|s|);
    CutAt(s, b, |s| - |s| % 64);
  }

  lemma NextPlace(n: nat)
    ensures (n + 1) % 64 == if n % 64 == 63 then 0 else n % 64 + 1
  {}

  lemma CutAt(s: seq<Byte>, b: Byte, c: nat)
    requires c <= |s|
    ensures (s + [b])[..c] == s[..c] && (s + [b])[c..] == s[c..] + [b] && s + [b] == s[..c] + (s[c..] + [b])
    ensures (s + [b])[..|s| + 1] == s + [b] && (s + [b])[|s| + 1..] == []
  {}

  lemma NextBlock(s: seq<Byte>, block: seq<Byte>)
    requires |s| % 64 == 0 && |block| == 64
    ensures (|s| + 64) % 64 == 0 && Blocks(s + block) == Block(Blocks(s), Words(block))
  {
    assert (s + block)[..|s + block| - 64] == s && (s + block)[|s + block| - 64..] == block;
  }

  const SIZES: nat := 0x1_0000_0000_0000_0000

  /** A size is kept in 64 bits. */
  function Wrapped(n: nat): nat { n % SIZES }

  class MD5Context {
    var size: nat
    const buffer: array<Word>
    const input: array<Byte>
    const digest: array<Byte>
    /** What has been put in. */
    ghost var seen: seq<Byte>

    ghost predicate Sized() {
      && buffer.Length == 4 && input.Length == 64 && digest.Length == 16 && input != digest
    }

    /** The registers are those after the full blocks, and the rest waits in `input`. */
    ghost predicate Took(s: seq<Byte>)
      reads this, buffer, input
    {
      Sized() && buffer[..] == Blocks(Whole(s)) && input[..|s| % 64] == Rest(s)
    }

    ghost predicate Valid()
      reads this, buffer, input
    {
      Took(seen) && size == Wrapped(|seen|)
    }

    /** md5Init. */
    constructor ()
      ensures Valid() && seen == [] && fresh(buffer) && fresh(input) && fresh(digest)
    {
      size, seen := 0, [];
      buffer := new Word[4](i requires 0 <= i < 4 => START[i]);
      input := new Byte[64](_ => 0);
      digest := new Byte[16](_ => 0);
      new;
      assert buffer[..] == START;
    }

    /** The first `n` words of the block in `input`. */
    method InputWords(n: nat) returns (x: seq<Word>)
      requires Sized() && n <= 16
      ensures x == Words(input[..4 * n])
    {
      x := [];
      var j := 0;
      while j < n
        invariant j <= n && |x| == j
        invariant forall k :: 0 <= k < j ==> x[k] == WordOf(input[4 * k], input[4 * k + 1], input[4 * k + 2], input[4 * k + 3])
      {
        hide WordOf;
        x := x + [WordOf(input[4 * j], input[4 * j + 1], input[4 * j + 2], input[4 * j + 3])];
        j := j + 1;
      }
    }

    /** md5Update's loop. */
    method TakeBytes(bytes: seq<Byte>, start: nat)
      requires Took(seen) && start == |seen| % 64
      modifies `seen, buffer, input
      ensures Took(seen) && seen == old(seen) + bytes
    {
      hide Blocks, Words, Block, Whole, Rest;
      var offset := start;
      var i := 0;
      while i < |bytes|
        invariant i <= |bytes| && seen == old(seen) + bytes[..i] && Took(seen) && offset == |seen| % 64
      {
        NextByte(seen, bytes[i]);
        ghost var was := seen;
        input[offset] := bytes[i];
        assert input[..offset + 1] == Rest(was) + [bytes[i]];
        offset := offset + 1;
        seen := seen + [bytes[i]];
        if offset % 64 == 0 {
          NextBlock(Whole(was), Rest(was) + [bytes[i]]);
          assert input[..64] == input[..offset];
          var x := InputWords(16);
          Md5Step(buffer, x);
          offset := 0;
        }
        assert bytes[..i + 1] == bytes[..i] + [bytes[i]];
        i := i + 1;
      }
      assert bytes[..i] == bytes;
    }

    /** md5Update. */
    method Update(bytes: seq<Byte>)
      requires Valid()
      modifies this, buffer, input
      ensures Valid() && seen == old(seen) + bytes
    {
      hide Blocks, Whole, Rest, Wrapped;
      SizeMod(|seen|);
      SizeAdd(|seen|, |bytes|);
      var offset := size % 64;
      size := Wrapped(size + |bytes|);
      TakeBytes(bytes, offset);
    }

    /** md5Finalize. */
    method Finalize()
      requires Valid()
      modifies this, buffer, input, digest
      ensures digest[..] == Digest(old(seen)) && size == old(size)
    {
      hide Blocks, Words, Block, Padding, PadLength, LengthBytes, LowWord, WordBytes, Output, Padded, Whole, Rest, Wrapped;
      ghost var msg := seen;
      SizeMod(|msg|);
      var offset := size % 64;
      var paddingLength := if offset < 56 then 56 - offset else 56 + 64 - offset;
      PadLengthIs(|msg|, paddingLength);
      var was := size;
      Update(Padding(paddingLength));
      size := was;
      LastBlock(msg, seen);
      LowWords(|msg|);
      var words := InputWords(14);
      var x := words + [LowWord(Wrapped(size * 8)), LowWord(Wrapped(size * 8) / 0x1_0000_0000)];
      Md5Step(buffer, x);
      assert buffer[..] == Blocks(Padded(msg));
      WriteDigest();
    }

    method WriteDigest()
      requires Sized()
      modifies digest
      ensures digest[..] == Output(buffer[..])
    {
      hide WordBytes, Output;
      NoOutput();
      var i := 0;
      while i < 4
        invariant i <= 4 && digest[..4 * i] == Output(buffer[..i])
      {
        var bs := WordBytes(buffer[i]);
        ghost var done := digest[..4 * i];
        digest[4 * i], digest[4 * i + 1], digest[4 * i + 2], digest[4 * i + 3] := bs[0], bs[1], bs[2], bs[3];
        assert digest[..4 * i] == done;
        assert digest[..4 * i + 4] == done + bs;
        OutputMore(buffer[..], i);
        i := i + 1;
      }
      assert buffer[..4] == buffer[..] && digest[..16] == digest[..];
    }
  }

  lemma NoOutput()
    ensures Output([]) == []
  {}

  lemma OutputMore(r: seq<Word>, i: nat)
    requires i < |r|
    ensures Output(r[..i + 1]) == Output(r[..i]) + WordBytes(r[i])
  {
    assert r[..i + 1][..i] == r[..i];
  }

  lemma PadLengthIs(n: nat, p: nat)
    requires p == if n % 64 < 56 then 56 - n % 64 else 120 - n % 64
    ensures p == PadLength(n)
  {}

  /** The last block: what was waiting with its padding, and the length. */
  lemma LastBlock(msg: seq<Byte>, most: seq<Byte>)
    requires most == msg + Padding(PadLength(|msg|))
    ensures |most| % 64 == 56
    ensures Blocks(Padded(msg)) ==
              Block(Blocks(Whole(most)), Words(Rest(most)) + [LowWord(8 * |msg|), LowWord(8 * |msg| / 0x1_0000_0000)])
  {
    hide Blocks, Block, Words, Padding, PadLength, LowWord, WordBytes, LengthBytes;
    var n := |msg|;
    var len := LengthBytes(n);
    NextBlock(Whole(most), Rest(most) + len);
    assert Padded(msg) == Whole(most) + (Rest(most) + len);
    LengthWords(Rest(most), n);
  }

  lemma LengthWords(s: seq<Byte>, n: nat)
    requires |s| == 56
    ensures Words(s + LengthBytes(n)) == Words(s) + [LowWord(8 * n), LowWord(8 * n / 0x1_0000_0000)]
  {
    hide WordOf, WordBytes, LowWord;
    var lo, hi := LowWord(8 * n), LowWord(8 * n / 0x1_0000_0000);
    var all := s + LengthBytes(n);
    WordRound(lo);
    WordRound(hi);
    EightAt(s, WordBytes(lo), WordBytes(hi));
    forall j | 0 <= j < 16
      ensures Words(all)[j] == (Words(s) + [lo, hi])[j]
    {
      if j < 14 {
        assert all[4 * j] == s[4 * j] && all[4 * j + 1] == s[4 * j + 1] && all[4 * j + 2] == s[4 * j + 2] && all[4 * j + 3] == s[4 * j + 3];
      }
    }
  }

  lemma EightAt(s: seq<Byte>, t: seq<Byte>, u: seq<Byte>)
    requires |s| == 56 && |t| == 4 && |u| == 4
    ensures var all := s + (t + u);
            && all[56] == t[0] && all[57] == t[1] && all[58] == t[2] && all[59] == t[3]
            && all[60] == u[0] && all[61] == u[1] && all[62] == u[2] && all[63] == u[3]
  {}

  /** Wrapping the size around at 64 bits does not change the length appended. */
  lemma LowWords(n: nat)
    ensures var bits := Wrapped(Wrapped(n) * 8);
            LowWord(bits) == LowWord(8 * n) && LowWord(bits / 0x1_0000_0000) == LowWord(8 * n / 0x1_0000_0000)
  {
    var size := n % SIZES;
    var bits := size * 8 % SIZES;
    var m := 8 * (n / SIZES) + size * 8 / SIZES;
    assert n == n / SIZES * SIZES + size;
    assert size * 8 == size * 8 / SIZES * SIZES + bits;
    assert 8 * n == m * SIZES + bits;
    LowParts(8 * n, m, bits);
  }

  lemma LowParts(x: nat, m: nat, bits: nat)
    requires x == m * SIZES + bits && bits < SIZES
    ensures x % 0x1_0000_0000 == bits % 0x1_0000_0000
    ensures x / 0x1_0000_0000 % 0x1_0000_0000 == bits / 0x1_0000_0000 % 0x1_0000_0000
  {
    var hi, lo := bits / 0x1_0000_0000, bits % 0x1_0000_0000;
    Quotient(m * 0x1_0000_0000 + hi, lo);
    Quotient(m, hi);
  }

  lemma Quotient(q: nat, r: nat)
    requires r < 0x1_0000_0000
    ensures (q * 0x1_0000_0000 + r) / 0x1_0000_0000 == q && (q * 0x1_0000_0000 + r) % 0x1_0000_0000 == r
  {}

  /** Contexts that have taken the same bytes, in whatever pieces, differ in nothing but the bytes
      of `input` past those that wait. */
  lemma SameContext(c: MD5Context, d: MD5Context)
    requires c.Valid() && d.Valid() && c.seen == d.seen
    ensures c.size == d.size && c.buffer[..] == d.buffer[..]
    ensures c.input[..c.size % 64] == d.input[..d.size % 64]
  {
    SizeMod(|c.seen|);
  }

  function HexDigit(n: nat): char
    requires n < 16
  {
    if n < 10 then '0' + n as char else 'a' + (n - 10) as char
  }

  function Hex(s: seq<Byte>): (h: string)
    ensures |h| == 2 * |s|
  {
    if s == [] then ""
    else var b := s[|s| - 1] as nat; Hex(s[..|s| - 1]) + [HexDigit(b / 16), HexDigit(b % 16)]
  }

  /** Two digits to a byte, the higher first. */
  lemma {:induction false} HexAt(s: seq<Byte>, i: nat)
    requires i < |s|
    ensures Hex(s)[2 * i] == "0123456789abcdef"[s[i] as nat / 16]
    ensures Hex(s)[2 * i + 1] == "0123456789abcdef"[s[i] as nat % 16]
  {
    var b := s[|s| - 1] as nat;
    if i < |s| - 1 {
      HexAt(s[..|s| - 1], i);
    } else {
      DigitIs(b / 16);
      DigitIs(b % 16);
    }
  }

  lemma DigitIs(n: nat)
    requires n < 16
    ensures HexDigit(n) == "0123456789abcdef"[n]
  {}

  /** calcMD5Sum. */
  method CalcMD5Sum(data: seq<Byte>) returns (output: string)
    ensures output == Hex(Digest(data))
  {
    hide Digest;
    var ctx := new MD5Context();
    ctx.Update(data);
    assert [] + data == data;
    ctx.Finalize();
    output := HexOf(ctx.digest[..]);
  }

  method HexOf(digest: seq<Byte>) returns (output: string)
    ensures output == Hex(digest)
  {
    output := "";
    var ii := 0;
    while ii < |digest|
      invariant ii <= |digest| && output == Hex(digest[..ii])
    {
      var b := digest[ii] as nat;
      assert digest[..ii + 1][..ii] == digest[..ii];
      output := output + [HexDigit(b / 16), HexDigit(b % 16)];
      ii := ii + 1;
    }
    assert digest[..ii] == digest;
  }

  lemma SizeMod(n: nat)
    ensures Wrapped(n) % 64 == n % 64
  {}

  lemma SizeAdd(n: nat, m: nat)
    ensures Wrapped(Wrapped(n) + m) == Wrapped(n + m)
  {}
}
