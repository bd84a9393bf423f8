/** A published digest (section A.5 of RFC 1321), operation by operation. */
module Md5Known {
  import opened Md5

  /** The one block of "abc": its bytes and the padding, and the length in bits. */
  const ABC: seq<Word> := [0x80636261, 0, 0, 0, 0, 0, 0, 0, 0, 0, 0, 0, 0, 0, 24, 0]

  /** What an operation puts in the register whose turn it is. */
  function Result(round: nat, a: Word, b: Word, c: Word, d: Word, x: Word, k: Word, s: Word): Word
    requires s < 32
  {
    Add(b, RotateLeft(Sum(a, Mix(round, b, c, d), x, k), s))
  }

  /** After `n` operations the registers hold `q`. */
  ghost predicate Reached(n: nat, q: seq<Word>) {
    n <= 64 && Operations(START, ABC, n) == q
  }

  /** What the tables hold for operation `n`. */
  ghost predicate Takes(n: nat, x: Word, k: Word, s: Word) {
    n < 64 && ABC[WordIndex(n)] == x && TableK(n) == k && Shift(n) == s
  }

  /** Operation `n`, in the register whose turn it is. */
  lemma One(n: nat, r: seq<Word>, q: seq<Word>, x: Word, k: Word, s: Word)
    requires n < 64 && |r| == |q| == 4 && s < 32 && Reached(n, r) && Takes(n, x, k, s)
    requires q == r[Place(n, 0) := Result(n / 16, r[Place(n, 0)], r[Place(n, 1)], r[Place(n, 2)], r[Place(n, 3)], x, k, s)]
    ensures Reached(n + 1, q)
  {
    hide Add, RotateLeft, Circular, Sum, Mix, TableK, Place, WordIndex, Shift;
    RotateIs(Sum(r[Place(n, 0)], Mix(n / 16, r[Place(n, 1)], r[Place(n, 2)], r[Place(n, 3)]), x, k), s);
  }

  lemma Turns(n: nat)
    requires n % 4 == 0
    ensures Place(n, 0) == 0 && Place(n, 1) == 1 && Place(n, 2) == 2 && Place(n, 3) == 3
    ensures Place(n + 1, 0) == 3 && Place(n + 1, 1) == 0 && Place(n + 1, 2) == 1 && Place(n + 1, 3) == 2
    ensures Place(n + 2, 0) == 2 && Place(n + 2, 1) == 3 && Place(n + 2, 2) == 0 && Place(n + 2, 3) == 1
    ensures Place(n + 3, 0) == 1 && Place(n + 3, 1) == 2 && Place(n + 3, 2) == 3 && Place(n + 3, 3) == 0
  {}

  lemma InRound(n: nat, round: nat)
    requires 16 * round <= n < 16 * round + 16
    ensures n / 16 == round
  {}

  /** Four operations, on the registers A, D, C and B in turn. */
  lemma Four(n: nat, round: nat, s: seq<Word>, t: seq<Word>, x: seq<Word>, k: seq<Word>, sh: seq<Word>)
    requires n % 4 == 0 && 16 * round <= n && n + 4 <= 16 * round + 16 <= 64
    requires |s| == |t| == |x| == |k| == |sh| == 4 && forall i :: 0 <= i < 4 ==> sh[i] < 32
    requires Reached(n, s) && Takes(n, x[0], k[0], sh[0]) && Takes(n + 1, x[1], k[1], sh[1])
    requires Takes(n + 2, x[2], k[2], sh[2]) && Takes(n + 3, x[3], k[3], sh[3])
    requires t[0] == Result(round, s[0], s[1], s[2], s[3], x[0], k[0], sh[0])
    requires t[3] == Result(round, s[3], t[0], s[1], s[2], x[1], k[1], sh[1])
    requires t[2] == Result(round, s[2], t[3], t[0], s[1], x[2], k[2], sh[2])
    requires t[1] == Result(round, s[1], t[2], t[3], t[0], x[3], k[3], sh[3])
    ensures Reached(n + 4, t)
  {
    hide Result, Takes, Reached, Place;
    Turns(n);
    InRound(n, round);
    InRound(n + 1, round);
    InRound(n + 2, round);
    InRound(n + 3, round);
    var s1, s2, s3 := [t[0], s[1], s[2], s[3]], [t[0], s[1], s[2], t[3]], [t[0], s[1], t[2], t[3]];
    assert s1 == s[0 := t[0]] && s2 == s1[3 := t[3]] && s3 == s2[2 := t[2]] && t == s3[1 := t[1]];
    One(n, s, s1, x[0], k[0], sh[0]);
    One(n + 1, s1, s2, x[1], k[1], sh[1]);
    One(n + 2, s2, s3, x[2], k[2], sh[2]);
    One(n + 3, s3, t, x[3], k[3], sh[3]);
  }

  // What the tables hold, and what the registers do after each four operations.

  lemma After0()
    ensures Reached(0, START)
  {}

  lemma Takes0()
    ensures Takes(0, 0x80636261, 0xd76aa478, 7)
    ensures Takes(1, 0, 0xe8c7b756, 12)
    ensures Takes(2, 0, 0x242070db, 17)
    ensures Takes(3, 0, 0xc1bdceee, 22)
  {}

  lemma Takes4()
    ensures Takes(4, 0, 0xf57c0faf, 7)
    ensures Takes(5, 0, 0x4787c62a, 12)
    ensures Takes(6, 0, 0xa8304613, 17)
    ensures Takes(7, 0, 0xfd469501, 22)
  {}

  lemma Takes8()
    ensures Takes(8, 0, 0x698098d8, 7)
    ensures Takes(9, 0, 0x8b44f7af, 12)
    ensures Takes(10, 0, 0xffff5bb1, 17)
    ensures Takes(11, 0, 0x895cd7be, 22)
  {}

  lemma Takes12()
    ensures Takes(12, 0, 0x6b901122, 7)
    ensures Takes(13, 0, 0xfd987193, 12)
    ensures Takes(14, 24, 0xa679438e, 17)
    ensures Takes(15, 0, 0x49b40821, 22)
  {}

  lemma Takes16()
    ensures Takes(16, 0, 0xf61e2562, 5)
    ensures Takes(17, 0, 0xc040b340, 9)
    ensures Takes(18, 0, 0x265e5a51, 14)
    ensures Takes(19, 0x80636261, 0xe9b6c7aa, 20)
  {}

  lemma Takes20()
    ensures Takes(20, 0, 0xd62f105d, 5)
    ensures Takes(21, 0, 0x02441453, 9)
    ensures Takes(22, 0, 0xd8a1e681, 14)
    ensures Takes(23, 0, 0xe7d3fbc8, 20)
  {}

  lemma Takes24()
    ensures Takes(24, 0, 0x21e1cde6, 5)
    ensures Takes(25, 24, 0xc33707d6, 9)
    ensures Takes(26, 0, 0xf4d50d87, 14)
    ensures Takes(27, 0, 0x455a14ed, 20)
  {}

  lemma Takes28()
    ensures Takes(28, 0, 0xa9e3e905, 5)
    ensures Takes(29, 0, 0xfcefa3f8, 9)
    ensures Takes(30, 0, 0x676f02d9, 14)
    ensures Takes(31, 0, 0x8d2a4c8a, 20)
  {}

  lemma Takes32()
    ensures Takes(32, 0, 0xfffa3942, 4)
    ensures Takes(33, 0, 0x8771f681, 11)
    ensures Takes(34, 0, 0x6d9d6122, 16)
    ensures Takes(35, 24, 0xfde5380c, 23)
  {}

  lemma Takes36()
    ensures Takes(36, 0, 0xa4beea44, 4)
    ensures Takes(37, 0, 0x4bdecfa9, 11)
    ensures Takes(38, 0, 0xf6bb4b60, 16)
    ensures Takes(39, 0, 0xbebfbc70, 23)
  {}

  lemma Takes40()
    ensures Takes(40, 0, 0x289b7ec6, 4)
    ensures Takes(41, 0x80636261, 0xeaa127fa, 11)
    ensures Takes(42, 0, 0xd4ef3085, 16)
    ensures Takes(43, 0, 0x04881d05, 23)
  {}

  lemma Takes44()
    ensures Takes(44, 0, 0xd9d4d039, 4)
    ensures Takes(45, 0, 0xe6db99e5, 11)
    ensures Takes(46, 0, 0x1fa27cf8, 16)
    ensures Takes(47, 0, 0xc4ac5665, 23)
  {}

  lemma Takes48()
    ensures Takes(48, 0x80636261, 0xf4292244, 6)
    ensures Takes(49, 0, 0x432aff97, 10)
    ensures Takes(50, 24, 0xab9423a7, 15)
    ensures Takes(51, 0, 0xfc93a039, 21)
  {}

  lemma Takes52()
    ensures Takes(52, 0, 0x655b59c3, 6)
    ensures Takes(53, 0, 0x8f0ccc92, 10)
    ensures Takes(54, 0, 0xffeff47d, 15)
    ensures Takes(55, 0, 0x85845dd1, 21)
  {}

  lemma Takes56()
    ensures Takes(56, 0, 0x6fa87e4f, 6)
    ensures Takes(57, 0, 0xfe2ce6e0, 10)
    ensures Takes(58, 0, 0xa3014314, 15)
    ensures Takes(59, 0, 0x4e0811a1, 21)
  {}

  lemma Takes60()
    ensures Takes(60, 0, 0xf7537e82, 6)
    ensures Takes(61, 0, 0xbd3af235, 10)
    ensures Takes(62, 0, 0x2ad7d2bb, 15)
    ensures Takes(63, 0, 0xeb86d391, 21)
  {}

  lemma After4()
    ensures Reached(4, [0xd6d117b4, 0x7ad956f2, 0x2f6fbd72, 0x344a8432])
  {
    hide Reached, Takes;
    After0();
    Takes0();
    var s, t := [0x67452301, 0xefcdab89, 0x98badcfe, 0x10325476], [0xd6d117b4, 0x7ad956f2, 0x2f6fbd72, 0x344a8432];
    var x, k, sh := [0x80636261, 0, 0, 0], [0xd76aa478, 0xe8c7b756, 0x242070db, 0xc1bdceee], [7, 12, 17, 22];
    Four(0, 0, s, t, x, k, sh);
  }

  lemma After8()
    ensures Reached(8, [0xc73741ef, 0x928d99f6, 0x207dc67b, 0x8bac3051])
  {
    hide Reached, Takes;
    After4();
    Takes4();
    var s, t := [0xd6d117b4, 0x7ad956f2, 0x2f6fbd72, 0x344a8432], [0xc73741ef, 0x928d99f6, 0x207dc67b, 0x8bac3051];
    var x, k, sh := [0, 0, 0, 0], [0xf57c0faf, 0x4787c62a, 0xa8304613, 0xfd469501], [7, 12, 17, 22];
    Four(4, 0, s, t, x, k, sh);
  }

  lemma After12()
    ensures Reached(12, [0x854b3712, 0x5ed49596, 0x3020401c, 0x74e2f284])
  {
    hide Reached, Takes;
    After8();
    Takes8();
    var s, t := [0xc73741ef, 0x928d99f6, 0x207dc67b, 0x8bac3051], [0x854b3712, 0x5ed49596, 0x3020401c, 0x74e2f284];
    var x, k, sh := [0, 0, 0, 0], [0x698098d8, 0x8b44f7af, 0xffff5bb1, 0x895cd7be], [7, 12, 17, 22];
    Four(8, 0, s, t, x, k, sh);
  }

  lemma After16()
    ensures Reached(16, [0xdda9b9a6, 0x72aff2e0, 0xe396856b, 0xa1051895])
  {
    hide Reached, Takes;
    After12();
    Takes12();
    var s, t := [0x854b3712, 0x5ed49596, 0x3020401c, 0x74e2f284], [0xdda9b9a6, 0x72aff2e0, 0xe396856b, 0xa1051895];
    var x, k, sh := [0, 0, 24, 0], [0x6b901122, 0xfd987193, 0xa679438e, 0x49b40821], [7, 12, 17, 22];
    Four(12, 0, s, t, x, k, sh);
  }

  lemma After20()
    ensures Reached(20, [0x3e9e9126, 0xb5b204e4, 0xe25e1652, 0x4a1d804e])
  {
    hide Reached, Takes;
    After16();
    Takes16();
    var s, t := [0xdda9b9a6, 0x72aff2e0, 0xe396856b, 0xa1051895], [0x3e9e9126, 0xb5b204e4, 0xe25e1652, 0x4a1d804e];
    var x, k, sh := [0, 0, 0, 0x80636261], [0xf61e2562, 0xc040b340, 0x265e5a51, 0xe9b6c7aa], [5, 9, 14, 20];
    Four(16, 1, s, t, x, k, sh);
  }

  lemma After24()
    ensures Reached(24, [0x59a8ffda, 0x47092c07, 0xabfc7920, 0x6d002f1e])
  {
    hide Reached, Takes;
    After20();
    Takes20();
    var s, t := [0x3e9e9126, 0xb5b204e4, 0xe25e1652, 0x4a1d804e], [0x59a8ffda, 0x47092c07, 0xabfc7920, 0x6d002f1e];
    var x, k, sh := [0, 0, 0, 0], [0xd62f105d, 0x02441453, 0xd8a1e681, 0xe7d3fbc8], [5, 9, 14, 20];
    Four(20, 1, s, t, x, k, sh);
  }

  lemma After28()
    ensures Reached(28, [0xb7f268cf, 0x786acb8f, 0xfe1623b1, 0x09388eff])
  {
    hide Reached, Takes;
    After24();
    Takes24();
    var s, t := [0x59a8ffda, 0x47092c07, 0xabfc7920, 0x6d002f1e], [0xb7f268cf, 0x786acb8f, 0xfe1623b1, 0x09388eff];
    var x, k, sh := [0, 24, 0, 0], [0x21e1cde6, 0xc33707d6, 0xf4d50d87, 0x455a14ed], [5, 9, 14, 20];
    Four(24, 1, s, t, x, k, sh);
  }

  lemma After32()
    ensures Reached(32, [0x790a77fb, 0x726342d3, 0xa62884aa, 0x9f47e4f8])
  {
    hide Reached, Takes;
    After28();
    Takes28();
    var s, t := [0xb7f268cf, 0x786acb8f, 0xfe1623b1, 0x09388eff], [0x790a77fb, 0x726342d3, 0xa62884aa, 0x9f47e4f8];
    var x, k, sh := [0, 0, 0, 0], [0xa9e3e905, 0xfcefa3f8, 0x676f02d9, 0x8d2a4c8a], [5, 9, 14, 20];
    Four(28, 1, s, t, x, k, sh);
  }

  lemma After36()
    ensures Reached(36, [0xb3707ebf, 0x3b0875c7, 0x8d212ff5, 0x60127b2e])
  {
    hide Reached, Takes;
    After32();
    Takes32();
    var s, t := [0x790a77fb, 0x726342d3, 0xa62884aa, 0x9f47e4f8], [0xb3707ebf, 0x3b0875c7, 0x8d212ff5, 0x60127b2e];
    var x, k, sh := [0, 0, 0, 24], [0xfffa3942, 0x8771f681, 0x6d9d6122, 0xfde5380c], [4, 11, 16, 23];
    Four(32, 2, s, t, x, k, sh);
  }

  lemma After40()
    ensures Reached(40, [0x21b117b9, 0x5a2f5ea5, 0x3575227e, 0x6e7429d5])
  {
    hide Reached, Takes;
    After36();
    Takes36();
    var s, t := [0xb3707ebf, 0x3b0875c7, 0x8d212ff5, 0x60127b2e], [0x21b117b9, 0x5a2f5ea5, 0x3575227e, 0x6e7429d5];
    var x, k, sh := [0, 0, 0, 0], [0xa4beea44, 0x4bdecfa9, 0xf6bb4b60, 0xbebfbc70], [4, 11, 16, 23];
    Four(36, 2, s, t, x, k, sh);
  }

  lemma After44()
    ensures Reached(44, [0x11de1779, 0x4c6124f4, 0x31c465ca, 0xfadcaa38])
  {
    hide Reached, Takes;
    After40();
    Takes40();
    var s, t := [0x21b117b9, 0x5a2f5ea5, 0x3575227e, 0x6e7429d5], [0x11de1779, 0x4c6124f4, 0x31c465ca, 0xfadcaa38];
    var x, k, sh := [0, 0x80636261, 0, 0], [0x289b7ec6, 0xeaa127fa, 0xd4ef3085, 0x04881d05], [4, 11, 16, 23];
    Four(40, 2, s, t, x, k, sh);
  }

  lemma After48()
    ensures Reached(48, [0x7f2e507b, 0x7beb9700, 0x8fae6399, 0x99d9679d])
  {
    hide Reached, Takes;
    After44();
    Takes44();
    var s, t := [0x11de1779, 0x4c6124f4, 0x31c465ca, 0xfadcaa38], [0x7f2e507b, 0x7beb9700, 0x8fae6399, 0x99d9679d];
    var x, k, sh := [0, 0, 0, 0], [0xd9d4d039, 0xe6db99e5, 0x1fa27cf8, 0xc4ac5665], [4, 11, 16, 23];
    Four(44, 2, s, t, x, k, sh);
  }

  lemma After52()
    ensures Reached(52, [0x7b201df8, 0x8bf025c4, 0xb298cefd, 0xf4e8e96e])
  {
    hide Reached, Takes;
    After48();
    Takes48();
    var s, t := [0x7f2e507b, 0x7beb9700, 0x8fae6399, 0x99d9679d], [0x7b201df8, 0x8bf025c4, 0xb298cefd, 0xf4e8e96e];
    var x, k, sh := [0x80636261, 0, 24, 0], [0xf4292244, 0x432aff97, 0xab9423a7, 0xfc93a039], [6, 10, 15, 21];
    Four(48, 3, s, t, x, k, sh);
  }

  lemma After56()
    ensures Reached(56, [0x06cc5e8a, 0x3bfa2c27, 0x7d632dd0, 0x5b0d97aa])
  {
    hide Reached, Takes;
    After52();
    Takes52();
    var s, t := [0x7b201df8, 0x8bf025c4, 0xb298cefd, 0xf4e8e96e], [0x06cc5e8a, 0x3bfa2c27, 0x7d632dd0, 0x5b0d97aa];
    var x, k, sh := [0, 0, 0, 0], [0x655b59c3, 0x8f0ccc92, 0xffeff47d, 0x85845dd1], [6, 10, 15, 21];
    Four(52, 3, s, t, x, k, sh);
  }

  lemma After60()
    ensures Reached(60, [0x7f81cc35, 0x7327d604, 0x4f9dbe3f, 0x094454ab])
  {
    hide Reached, Takes;
    After56();
    Takes56();
    var s, t := [0x06cc5e8a, 0x3bfa2c27, 0x7d632dd0, 0x5b0d97aa], [0x7f81cc35, 0x7327d604, 0x4f9dbe3f, 0x094454ab];
    var x, k, sh := [0, 0, 0, 0], [0x6fa87e4f, 0xfe2ce6e0, 0xa3014314, 0x4e0811a1], [6, 10, 15, 21];
    Four(56, 3, s, t, x, k, sh);
  }

  lemma After64()
    ensures Reached(64, [0x310ade8f, 0xc08226b3, 0xe484b9d8, 0x624d8cb2])
  {
    hide Reached, Takes;
    After60();
    Takes60();
    var s, t := [0x7f81cc35, 0x7327d604, 0x4f9dbe3f, 0x094454ab], [0x310ade8f, 0xc08226b3, 0xe484b9d8, 0x624d8cb2];
    var x, k, sh := [0, 0, 0, 0], [0xf7537e82, 0xbd3af235, 0x2ad7d2bb, 0xeb86d391], [6, 10, 15, 21];
    Four(60, 3, s, t, x, k, sh);
  }

  // ----- the whole digest -------------------------------------------------------------------

  const MESSAGE: seq<Byte> := [0x61, 0x62, 0x63]

  /** Three bytes, a one bit, zeros, and the length of 24 bits. */
  ghost predicate AbcPadded(s: seq<Byte>) {
    |s| == 64 && forall i :: 0 <= i < 64 ==> s[i] == (if i < 3 then MESSAGE[i] else if i == 3 then 0x80 else if i == 56 then 24 else 0)
  }

  lemma PaddedIs()
    ensures AbcPadded(Padded(MESSAGE))
  {
    hide AbcPadded, Padding, LengthBytes, PadLength;
    assert PadLength(3) == 53;
    LengthIs();
    PaddedParts(Padding(53), LengthBytes(3));
  }

  lemma PaddedParts(p: seq<Byte>, l: seq<Byte>)
    requires p == Padding(53) && l == [24, 0, 0, 0, 0, 0, 0, 0]
    ensures AbcPadded(MESSAGE + p + l)
  {}

  lemma LengthIs()
    ensures LengthBytes(3) == [24, 0, 0, 0, 0, 0, 0, 0]
  {
    hide WordBytes, LowWord;
    LengthWords();
    LengthWordBytes();
  }

  lemma LengthWords()
    ensures LowWord(8 * 3) == 24 && LowWord(8 * 3 / 0x1_0000_0000) == 0
  {
    hide LowWord;
    LowWordIs(24);
    LowWordIs(0);
  }

  lemma LowWordIs(n: nat)
    requires n < 0x1_0000_0000
    ensures LowWord(n) == n as Word
  {}

  lemma LengthWordBytes()
    ensures WordBytes(24) == [24, 0, 0, 0] && WordBytes(0) == [0, 0, 0, 0]
  {}

  lemma WordsAre(s: seq<Byte>)
    requires AbcPadded(s)
    ensures Words(s) == ABC
  {
    SomeWords();
    hide WordOf;
    forall j | 0 <= j < 16
      ensures Words(s)[j] == ABC[j]
    {
      assert Words(s)[j] == WordOf(s[4 * j], s[4 * j + 1], s[4 * j + 2], s[4 * j + 3]);
    }
  }

  lemma SomeWords()
    ensures WordOf(0x61, 0x62, 0x63, 0x80) == 0x80636261 && WordOf(24, 0, 0, 0) == 24 && WordOf(0, 0, 0, 0) == 0
  {}

  lemma BlockIs()
    ensures Block(START, ABC) == [0x98500190, 0xb04fd23c, 0x7d3f96d6, 0x727fe128]
  {
    hide Operations, Reached;
    After64();
    ReachedIs();
  }

  lemma ReachedIs()
    ensures Reached(64, Operations(START, ABC, 64))
    ensures forall q :: Reached(64, q) ==> q == Operations(START, ABC, 64)
  {}

  lemma BytesAre(q: seq<Word>)
    requires q == [0x98500190, 0xb04fd23c, 0x7d3f96d6, 0x727fe128]
    ensures Output(q)
         == [0x90, 0x01, 0x50, 0x98, 0x3c, 0xd2, 0x4f, 0xb0,
             0xd6, 0x96, 0x3f, 0x7d, 0x28, 0xe1, 0x7f, 0x72]
  {
    hide Output, WordBytes;
    RegisterBytes();
    OutputFour(q[0], q[1], q[2], q[3]);
    assert q == [q[0], q[1], q[2], q[3]];
  }

  lemma RegisterBytes()
    ensures WordBytes(0x98500190) == [0x90, 0x01, 0x50, 0x98]
    ensures WordBytes(0xb04fd23c) == [0x3c, 0xd2, 0x4f, 0xb0]
    ensures WordBytes(0x7d3f96d6) == [0xd6, 0x96, 0x3f, 0x7d]
    ensures WordBytes(0x727fe128) == [0x28, 0xe1, 0x7f, 0x72]
  {
    hide WordBytes, WordOf;
    RegisterWords();
    BytesOfWord(0x90, 0x01, 0x50, 0x98);
    BytesOfWord(0x3c, 0xd2, 0x4f, 0xb0);
    BytesOfWord(0xd6, 0x96, 0x3f, 0x7d);
    BytesOfWord(0x28, 0xe1, 0x7f, 0x72);
  }

  lemma RegisterWords()
    ensures WordOf(0x90, 0x01, 0x50, 0x98) == 0x98500190
    ensures WordOf(0x3c, 0xd2, 0x4f, 0xb0) == 0xb04fd23c
    ensures WordOf(0xd6, 0x96, 0x3f, 0x7d) == 0x7d3f96d6
    ensures WordOf(0x28, 0xe1, 0x7f, 0x72) == 0x727fe128
  {}

  lemma BytesOfWord(b0: Byte, b1: Byte, b2: Byte, b3: Byte)
    ensures WordBytes(WordOf(b0, b1, b2, b3)) == [b0, b1, b2, b3]
  {
    var s := WordBytes(WordOf(b0, b1, b2, b3));
    assert s[0] == b0;
    assert s[1] == b1;
    assert s[2] == b2;
    assert s[3] == b3;
  }

  lemma OutputFour(a: Word, b: Word, c: Word, d: Word)
    ensures Output([a, b, c, d]) == WordBytes(a) + WordBytes(b) + WordBytes(c) + WordBytes(d)
  {
    hide WordBytes;
    OutputMore([], a);
    OutputMore([a], b);
    OutputMore([a, b], c);
    OutputMore([a, b, c], d);
    assert [] + [a] == [a] && [a] + [b] == [a, b] && [a, b] + [c] == [a, b, c] && [a, b, c] + [d] == [a, b, c, d];
  }

  lemma OutputMore(r: seq<Word>, w: Word)
    ensures Output(r + [w]) == Output(r) + WordBytes(w)
  {
    hide WordBytes;
    assert (r + [w])[..|r|] == r;
  }

  lemma PaddedSize()
    ensures |Padded(MESSAGE)| == 64
  {
    PaddedIs();
  }

  lemma OneBlock(s: seq<Byte>)
    requires |s| == 64
    ensures Blocks(s) == Block(START, Words(s))
  {
    hide Block, Words;
    assert s[..0] == [] && s[0..] == s;
    assert Blocks([]) == START;
  }

  /** MD5 ("abc") = 900150983cd24fb0d6963f7d28e17f72. */
  lemma KnownDigest()
    ensures Digest(MESSAGE)
         == [0x90, 0x01, 0x50, 0x98, 0x3c, 0xd2, 0x4f, 0xb0,
             0xd6, 0x96, 0x3f, 0x7d, 0x28, 0xe1, 0x7f, 0x72]
  {
    hide Padded, Words, Block, Blocks, Output, AbcPadded;
    PaddedIs();
    PaddedSize();
    WordsAre(Padded(MESSAGE));
    OneBlock(Padded(MESSAGE));
    BlockIs();
    BytesAre(Blocks(Padded(MESSAGE)));
  }
}
