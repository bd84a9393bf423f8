/** What the hash of a move stack tells: positions that differ in a byte have different hashes. */
module StackHashes {
  import opened Wrappers
  import opened BitStream
  import opened JenkinsHash
  import opened StackCodec
  import opened MoveStacks
  import opened StackCopies

  /** The bytes that the hash of a list of entries is taken of. */
  function PositionBytes(cfg: Cfg, es: seq<StackEntry>): seq<Byte> {
    HashedBytes(PutBits([], 0, Canon(cfg, es)), |Canon(cfg, es)|)
  }

  /** Two positions of as many bytes that differ in one of them are told apart by their hashes. */
  lemma OtherPosition(cfg: Cfg, es: seq<StackEntry>, fs: seq<StackEntry>, k: nat)
    requires var a, b := PositionBytes(cfg, es), PositionBytes(cfg, fs);
             k < |a| == |b| && a[k] != b[k] && a[..k] == b[..k] && a[k + 1..] == b[k + 1..]
    ensures HashOf(cfg, es) != HashOf(cfg, fs)
  {
    hide Canon, PutBits, HashedBytes, HashBytes;
    OneByteTells(PositionBytes(cfg, es), PositionBytes(cfg, fs), k);
  }

  // ----- one tile ---------------------------------------------------------------------------

  lemma {:induction false} ShorterBits(n: nat, m: nat, v: nat)
    requires n <= m
    ensures ValBits(m, v)[..n] == ValBits(n, v)
  {
    if n > 0 {
      ShorterBits(n - 1, m - 1, v / 2);
    }
  }

  /** The fourteen bits of the entry, field by field. */
  lemma OneTileBits(cfg: Cfg, t: nat)
    requires cfg == Cfg(CUR_STREAM_VERS, 2, 5, false)
    ensures Canon(cfg, [StackEntry(0, Assign([t]))])
         == [false, false, false, false, true, false, false, false] + ValBits(6, t)
  {
    hide FieldBits, ValBits, Canon;
    CanonOne(cfg, StackEntry(0, Assign([t])));
    var head, tray := [Field(2, 0), Field(2, 0)], [Field(NTILES_NBITS_9, 1), Field(TILE_NBITS, t)];
    assert TrayFields(cfg, [t]) == tray;
    FieldBitsConcat(head, tray);
    TwoFields(head[0], head[1]);
    TwoFields(tray[0], tray[1]);
    OneInBits(4);
    NoneInBits();
    assert EntryBits(cfg, StackEntry(0, Assign([t])), 0) == FieldBits(head + tray);
  }

  lemma NoneInBits()
    ensures ValBits(2, 0) == [false, false]
  {
    assert ValBits(1, 0) == [false];
  }

  /** Four bits for type and player, the count above them, and the tile in a byte of its own. */
  lemma OneTileBytes(cfg: Cfg, t: nat)
    requires cfg == Cfg(CUR_STREAM_VERS, 2, 5, false) && t < 64
    ensures PositionBytes(cfg, [StackEntry(0, Assign([t]))]) == [0x10, LowBits(ByteOf(t), 6)]
  {
    hide Canon, PutBits, LowBits, Mask, ByteOf;
    OneTileBits(cfg, t);
    OneTileHeld(t);
    HashFits(Canon(cfg, [StackEntry(0, Assign([t]))]), [0x10, ByteOf(t)]);
  }

  lemma OneTileHeld(t: nat)
    requires t < 64
    ensures Holds([0x10, ByteOf(t)], 0, [false, false, false, false, true, false, false, false] + ValBits(6, t))
  {
    hide ValBits, ByteOf;
    var data, bs := [0x10, ByteOf(t)], [false, false, false, false, true, false, false, false] + ValBits(6, t);
    CountByte();
    TileByte(t);
    forall n | 0 <= n < |bs|
      ensures Bit(data, n) == bs[n]
    {
      if n >= 8 {
        assert n / 8 == 1 && n % 8 == n - 8;
      }
    }
  }

  lemma CountByte()
    ensures forall j :: 0 <= j < 8 ==> BitOf(0x10, j) == (j == 4)
  {}

  lemma TileByte(t: nat)
    ensures forall j :: 0 <= j < 6 ==> BitOf(ByteOf(t), j) == ValBits(6, t)[j]
  {
    hide ValBits, Pack;
    PackBits(ValBits(8, t));
    ShorterBits(6, 8, t);
    forall j | 0 <= j < 6
      ensures BitOf(ByteOf(t), j) == ValBits(6, t)[j]
    {
      assert ByteBits(ByteOf(t))[j] == ValBits(8, t)[j] == ValBits(8, t)[..6][j];
    }
  }

  /** Stacks on which another tile has been drawn have other hashes. */
  lemma OtherTile(cfg: Cfg, t: nat, u: nat)
    requires cfg == Cfg(CUR_STREAM_VERS, 2, 5, false) && t < 64 && u < 64 && t != u
    ensures HashOf(cfg, [StackEntry(0, Assign([t]))]) != HashOf(cfg, [StackEntry(0, Assign([u]))])
  {
    hide Canon, PutBits, HashOf, LowBits, ByteOf, PositionBytes;
    OneTileBytes(cfg, t);
    OneTileBytes(cfg, u);
    TileBytesDiffer(t, u);
    OtherPosition(cfg, [StackEntry(0, Assign([t]))], [StackEntry(0, Assign([u]))], 1);
  }

  lemma TileBytesDiffer(t: nat, u: nat)
    requires t < 64 && u < 64 && t != u
    ensures LowBits(ByteOf(t), 6) != LowBits(ByteOf(u), 6)
  {
    hide ValBits, LowBits, BitOf, ByteOf, Pow2;
    TileByte(t);
    TileByte(u);
    SixtyFour();
    ValueOfBits(6, t);
    ValueOfBits(6, u);
    forall j | 0 <= j < 6
      ensures BitOf(LowBits(ByteOf(t), 6), j) == ValBits(6, t)[j] && BitOf(LowBits(ByteOf(u), 6), j) == ValBits(6, u)[j]
    {
      LowBitsAt(ByteOf(t), 6, j);
      LowBitsAt(ByteOf(u), 6, j);
    }
    assert LowBits(ByteOf(t), 6) == LowBits(ByteOf(u), 6) ==> ValBits(6, t) == ValBits(6, u);
  }

  /** The stack's own hash of one tile; for tile 1 the value is known. */
  method OneTileHash(t: nat) returns (hash: bv32)
    requires t < 64
    ensures hash == HashBytes([0x10, LowBits(ByteOf(t), 6)])
    ensures t == 1 ==> hash == 0x40c66f84
  {
    hide Canon, HashBytes, LowBits, ByteOf, PutBits, HashedBytes;
    var stack := OneTileStack(t);
    assert stack.entries[..1] == stack.entries;
    hash := stack.GetHash();
    OneTileBytes(stack.Layout(), t);
    KnownHashes();
    ByteOne();
  }

  lemma ByteOne()
    ensures LowBits(ByteOf(1), 6) == 0x01
  {
    TileByte(1);
    SixBits();
    forall j | 0 <= j < 8
      ensures BitOf(LowBits(ByteOf(1), 6), j) == BitOf(0x01, j)
    {
      LowBitsAt(ByteOf(1), 6, j);
    }
    SameBits(LowBits(ByteOf(1), 6), 0x01);
  }

  lemma SixBits()
    ensures ValBits(6, 1) == [true, false, false, false, false, false]
  {
    assert ValBits(2, 0) == [false, false] && ValBits(4, 0) == [false, false, false, false];
    assert ValBits(5, 0) == [false, false, false, false, false];
  }

  // ----- entries of every kind --------------------------------------------------------------

  /** The fields of one entry of each kind, with their widths: a move across row 7 of tile 3 and a
      blank standing for tile 9, a trade, a phony; of a duplicate game a move with two scores, and
      the packed part of a pause. */
  lemma KnownFields()
    ensures var cfg, dup := Cfg(CUR_STREAM_VERS, 2, 5, false), Cfg(CUR_STREAM_VERS, 3, 6, true);
            var mi := MoveInfo(7, true, [MoveTile(5, 3), MoveTile(8, 64 + 9)]);
            && EntryFields(cfg, StackEntry(1, Move(mi, [11], [])))
               == [Field(2, 1), Field(2, 1), Field(4, 2), Field(5, 7), Field(1, 1), Field(5, 5), Field(5, 3), Field(1, 0),
                   Field(5, 8), Field(5, 9), Field(1, 1), Field(4, 1), Field(6, 11)]
            && EntryFields(cfg, StackEntry(2, Trade([1, 2], [3, 4])))
               == [Field(2, 2), Field(2, 2), Field(4, 2), Field(6, 1), Field(6, 2), Field(4, 2), Field(6, 3), Field(6, 4)]
            && EntryFields(cfg, StackEntry(3, Phony(MoveInfo(2, false, [MoveTile(1, 6)]))))
               == [Field(2, 3), Field(2, 3), Field(4, 1), Field(5, 2), Field(1, 0), Field(5, 1), Field(5, 6), Field(1, 0)]
            && EntryFields(dup, StackEntry(0, Move(MoveInfo(0, false, []), [], [5, 0])))
               == [Field(3, 1), Field(2, 0), Field(4, 0), Field(5, 0), Field(1, 0), Field(4, 0), Field(3, 2), Field(4, 3),
                   Field(3, 5), Field(3, 0)]
            && EntryFields(dup, StackEntry(0, Pause(2, 1000, []))) == [Field(3, 4), Field(2, 0), Field(2, 2)]
  {
    KnownMove();
    KnownTrade();
    KnownPhony();
    KnownScores();
  }

  lemma KnownMove()
    ensures EntryFields(Cfg(CUR_STREAM_VERS, 2, 5, false),
                        StackEntry(1, Move(MoveInfo(7, true, [MoveTile(5, 3), MoveTile(8, 64 + 9)]), [11], [])))
            == [Field(2, 1), Field(2, 1), Field(4, 2), Field(5, 7), Field(1, 1), Field(5, 5), Field(5, 3), Field(1, 0),
                Field(5, 8), Field(5, 9), Field(1, 1), Field(4, 1), Field(6, 11)]
  {
    var cfg := Cfg(CUR_STREAM_VERS, 2, 5, false);
    var a, b := MoveTile(5, 3), MoveTile(8, 64 + 9);
    assert [a, b][1..] == [b] && [b][1..] == [];
    assert MoveTileFields(cfg, [b]) == [Field(5, 8), Field(5, 9), Field(1, 1)];
    assert MoveTileFields(cfg, [a, b]) == [Field(5, 5), Field(5, 3), Field(1, 0)] + MoveTileFields(cfg, [b]);
    assert TrayFields(cfg, [11]) == [Field(4, 1), Field(6, 11)];
  }

  lemma KnownTrade()
    ensures EntryFields(Cfg(CUR_STREAM_VERS, 2, 5, false), StackEntry(2, Trade([1, 2], [3, 4])))
            == [Field(2, 2), Field(2, 2), Field(4, 2), Field(6, 1), Field(6, 2), Field(4, 2), Field(6, 3), Field(6, 4)]
  {
    var cfg := Cfg(CUR_STREAM_VERS, 2, 5, false);
    assert TrayFields(cfg, [1, 2]) == [Field(4, 2), Field(6, 1), Field(6, 2)];
    assert TrayFields(cfg, [3, 4]) == [Field(4, 2), Field(6, 3), Field(6, 4)];
  }

  lemma KnownPhony()
    ensures EntryFields(Cfg(CUR_STREAM_VERS, 2, 5, false), StackEntry(3, Phony(MoveInfo(2, false, [MoveTile(1, 6)]))))
            == [Field(2, 3), Field(2, 3), Field(4, 1), Field(5, 2), Field(1, 0), Field(5, 1), Field(5, 6), Field(1, 0)]
  {
    var a := MoveTile(1, 6);
    assert [a][1..] == [];
    assert MoveTileFields(Cfg(CUR_STREAM_VERS, 2, 5, false), [a]) == [Field(5, 1), Field(5, 6), Field(1, 0)];
  }

  lemma KnownScores()
    ensures EntryFields(Cfg(CUR_STREAM_VERS, 3, 6, true), StackEntry(0, Move(MoveInfo(0, false, []), [], [5, 0])))
            == [Field(3, 1), Field(2, 0), Field(4, 0), Field(5, 0), Field(1, 0), Field(4, 0), Field(3, 2), Field(4, 3),
                Field(3, 5), Field(3, 0)]
    ensures EntryFields(Cfg(CUR_STREAM_VERS, 3, 6, true), StackEntry(0, Pause(2, 1000, [])))
            == [Field(3, 4), Field(2, 0), Field(2, 2)]
  {
    var cfg, scores := Cfg(CUR_STREAM_VERS, 3, 6, true), [5, 0];
    assert scores[..1] == [5] && [5][..0] == [];
    assert MaxScore([5]) == 5 && MaxScore(scores) == 5;
    assert BitsForMax(1) == 1 && BitsForMax(2) == 2 && BitsForMax(5) == 3;
    assert ScoreFields(scores) == [Field(4, 3), Field(3, 5), Field(3, 0)];
    assert TrayFields(cfg, []) == [Field(4, 0)];
  }

  /** Scores of zero take a bit each; a text's length takes a byte, or as many as it needs. */
  lemma KnownLengths(cfg: Cfg)
    ensures ScoreFields([0, 0]) == [Field(4, 1), Field(1, 0), Field(1, 0)] && ScoreFields([]) == []
    ensures |LenBits(cfg, 200)| == if cfg.version < 0x22 then 8 else 16
  {
    assert [0, 0][..1] == [0] && [0][..0] == [];
    assert MaxScore([0]) == 1 && MaxScore([0, 0]) == 1;
    assert |VLBits(1)| == 8 && |VLBits(200)| == 16;
  }

  // ----- a saved stack ----------------------------------------------------------------------

  /** The bytes as numbers. */
  function Values(bytes: seq<Byte>): (v: seq<nat>)
    ensures |v| == |bytes| && forall i :: 0 <= i < |v| ==> v[i] == bytes[i] as nat
  {
    seq(|bytes|, i requires 0 <= i < |bytes| => bytes[i] as nat)
  }

  /** The stack of one tile, saved on a stream that knows of nine tiles: the number of bytes, the
      version of its stream, the two counters, the position, and the two bytes. */
  lemma KnownImage()
    ensures Values(Image(CUR_STREAM_VERS, StackImage(2, false, 0x26, 1, 1, 22, [0x10, 0x01])))
         == [0, 2, 0x26, 0, 1, 0, 1, 0, 0, 0, 22, 0x10, 0x01]
    ensures Values(Image(CUR_STREAM_VERS, StackImage(3, true, 0x1D, 0, 0, 0, []))) == [0x80, 0, 1]
    ensures Values(Image(CUR_STREAM_VERS, StackImage(3, false, 0x26, 0, 0, 0, []))) == [0x80, 0, 0]
  {
    hide ByteOf;
    SmallBytes();
  }

  lemma SmallBytes()
    ensures ByteOf(0) as nat == 0 && ByteOf(1) as nat == 1 && ByteOf(2) as nat == 2
    ensures ByteOf(22) as nat == 22 && ByteOf(0x26) as nat == 0x26 && ByteOf(0x80) as nat == 0x80
  {
    hide ByteOf;
    ByteOfIs(0);
    ByteOfIs(1);
    ByteOfIs(2);
    ByteOfIs(22);
    ByteOfIs(0x26);
    ByteOfIs(0x80);
  }
}
