/** How one entry of the move stack is put on a stream and read back (movestak.c, strutils.c). */
module StackCodec {
  import opened Wrappers
  import opened BitStream
  import opened MemStreams

  const STREAM_VERS_NINETILES: nat := 0x1E
  const STREAM_VERS_NORELAY: nat := 0x22
  const NTILES_NBITS_7: nat := 3
  const NTILES_NBITS_9: nat := 4
  const NUMCOLS_NBITS_5: nat := 5
  const NPLAYERS_NBITS: nat := 3
  const TILE_NBITS: nat := 6
  const MAX_TRAY_TILES: nat := 9
  const MAX_NUM_PLAYERS: nat := 4

  /** What the layout of an entry depends on. */
  datatype Cfg = Cfg(version: nat, typeBits: nat, bitsPerTile: nat, dup: bool)

  /** `tile` carries the blank flag as its seventh bit. */
  datatype MoveTile = MoveTile(varCoord: nat, tile: nat)

  datatype MoveInfo = MoveInfo(commonCoord: nat, isHorizontal: bool, tiles: seq<MoveTile>)

  type TraySet = seq<nat>

  datatype Body =
    | Assign(tiles: TraySet)
    | Move(moveInfo: MoveInfo, newTiles: TraySet, scores: seq<nat>)
    | Trade(oldTiles: TraySet, newTiles: TraySet)
    | Phony(moveInfo: MoveInfo)
    | Pause(pauseType: nat, when: nat, msg: seq<Byte>)

  datatype StackEntry = StackEntry(playerNum: nat, body: Body)

  function TilesNBits(cfg: Cfg): nat {
    if STREAM_VERS_NINETILES <= cfg.version then NTILES_NBITS_9 else NTILES_NBITS_7
  }

  function MoveType(body: Body): nat {
    match body
    case Assign(_) => 0
    case Move(_, _, _) => 1
    case Trade(_, _) => 2
    case Phony(_) => 3
    case Pause(_, _, _) => 4
  }

  /** bitsForMax. */
  function BitsForMax(n: nat): (b: nat)
    ensures n < Pow2(b)
  {
    if n == 0 then 0 else 1 + BitsForMax(n / 2)
  }

  function MaxScore(scores: seq<nat>): (m: nat)
    ensures m >= 1 && forall k :: 0 <= k < |scores| ==> scores[k] <= m
  {
    if scores == [] then 1
    else
      var rest := MaxScore(scores[..|scores| - 1]);
      if scores[|scores| - 1] > rest then scores[|scores| - 1] else rest
  }

  // ----- what an entry must be for its fields to fit ----------------------------------------

  predicate TrayOk(cfg: Cfg, ts: TraySet) {
    |ts| <= MAX_TRAY_TILES && |ts| < Pow2(TilesNBits(cfg)) && forall k :: 0 <= k < |ts| ==> ts[k] < 64
  }

  predicate MoveOk(cfg: Cfg, mi: MoveInfo) {
    && |mi.tiles| <= MAX_TRAY_TILES && |mi.tiles| < Pow2(TilesNBits(cfg)) && mi.commonCoord < 32
    && forall k :: 0 <= k < |mi.tiles| ==>
         mi.tiles[k].varCoord < 32 && mi.tiles[k].tile < 128 && mi.tiles[k].tile % 64 < Pow2(cfg.bitsPerTile)
  }

  predicate ScoresOk(cfg: Cfg, scores: seq<nat>) {
    |scores| <= MAX_NUM_PLAYERS && (!cfg.dup ==> scores == []) && forall k :: 0 <= k < |scores| ==> scores[k] < 0x8000
  }

  predicate CfgOk(cfg: Cfg) {
    2 <= cfg.typeBits <= 3 && 5 <= cfg.bitsPerTile <= 6
  }

  predicate EntryOk(cfg: Cfg, e: StackEntry) {
    && e.playerNum < 4
    && match e.body
       case Assign(ts) => TrayOk(cfg, ts)
       case Move(mi, ts, scores) => MoveOk(cfg, mi) && TrayOk(cfg, ts) && ScoresOk(cfg, scores)
       case Trade(a, b) => TrayOk(cfg, a) && TrayOk(cfg, b)
       case Phony(mi) => MoveOk(cfg, mi)
       case Pause(t, when, msg) =>
         cfg.typeBits == 3 && t < 4 && when < 0x1_0000_0000
         && |msg| < if cfg.version < STREAM_VERS_NORELAY then 0x100 else 0x1_0000_0000
  }

  // ----- fields -----------------------------------------------------------------------------

  /** A value to be put into so many bits. */
  datatype Field = Field(width: nat, value: nat)

  predicate FieldOk(fd: Field) { fd.width > 0 && fd.value < Pow2(fd.width) }

  ghost predicate FieldsOk(fs: seq<Field>) {
    forall k :: 0 <= k < |fs| ==> FieldOk(fs[k])
  }

  function FieldBits(fs: seq<Field>): seq<bool> {
    if fs == [] then [] else ValBits(fs[0].width, fs[0].value) + FieldBits(fs[1..])
  }

  lemma {:induction false} FieldBitsConcat(a: seq<Field>, b: seq<Field>)
    ensures FieldBits(a + b) == FieldBits(a) + FieldBits(b)
  {
    hide ValBits;
    if a == [] {
      assert a + b == b;
    } else {
      assert (a + b)[0] == a[0] && (a + b)[1..] == a[1..] + b;
      FieldBitsConcat(a[1..], b);
    }
  }

  lemma FieldBitsOne(fd: Field)
    ensures FieldBits([fd]) == ValBits(fd.width, fd.value)
  {
    hide ValBits;
    assert [fd][1..] == [];
    assert ValBits(fd.width, fd.value) + [] == ValBits(fd.width, fd.value);
  }

  function TileFields(ts: TraySet): seq<Field> {
    seq(|ts|, k requires 0 <= k < |ts| => Field(TILE_NBITS, ts[k]))
  }

  function TrayFields(cfg: Cfg, ts: TraySet): seq<Field> {
    [Field(TilesNBits(cfg), |ts|)] + TileFields(ts)
  }

  function MoveTileFields(cfg: Cfg, tiles: seq<MoveTile>): seq<Field> {
    if tiles == [] then []
    else
      [Field(NUMCOLS_NBITS_5, tiles[0].varCoord), Field(cfg.bitsPerTile, tiles[0].tile % 64), Field(1, tiles[0].tile / 64)]
      + MoveTileFields(cfg, tiles[1..])
  }

  function MoveFields(cfg: Cfg, mi: MoveInfo): seq<Field> {
    [Field(TilesNBits(cfg), |mi.tiles|), Field(NUMCOLS_NBITS_5, mi.commonCoord), Field(1, if mi.isHorizontal then 1 else 0)]
    + MoveTileFields(cfg, mi.tiles)
  }

  function EachScore(width: nat, scores: seq<nat>): seq<Field> {
    seq(|scores|, k requires 0 <= k < |scores| => Field(width, scores[k]))
  }

  function ScoreFields(scores: seq<nat>): seq<Field> {
    if scores == [] then []
    else
      var bits := BitsForMax(MaxScore(scores));
      [Field(4, bits)] + EachScore(bits, scores)
  }

  function BodyFields(cfg: Cfg, body: Body): seq<Field> {
    match body
    case Assign(ts) => TrayFields(cfg, ts)
    case Move(mi, ts, scores) =>
      MoveFields(cfg, mi) + TrayFields(cfg, ts)
      + if cfg.dup then [Field(NPLAYERS_NBITS, |scores|)] + ScoreFields(scores) else []
    case Trade(a, b) => TrayFields(cfg, a) + TrayFields(cfg, b)
    case Phony(mi) => MoveFields(cfg, mi)
    case Pause(t, _, _) => [Field(2, t)]
  }

  /** The part of an entry that is packed bit by bit. */
  function EntryFields(cfg: Cfg, e: StackEntry): seq<Field> {
    [Field(cfg.typeBits, MoveType(e.body)), Field(2, e.playerNum)] + BodyFields(cfg, e.body)
  }

  function LenBits(cfg: Cfg, len: nat): seq<bool> {
    if cfg.version < STREAM_VERS_NORELAY then AllBits([ByteOf(len)]) else VLBits(len)
  }

  /** The byte-aligned part, if the fields end at position `j`. */
  function TailBits(cfg: Cfg, e: StackEntry, j: nat): seq<bool> {
    match e.body
    case Pause(_, when, msg) => Zeros(Align(j) - j) + AllBits(U32Bytes(when)) + LenBits(cfg, |msg|) + AllBits(msg)
    case _ => []
  }

  /** All the bits of an entry that begins at position `i`. */
  function EntryBits(cfg: Cfg, e: StackEntry, i: nat): seq<bool> {
    var bs := FieldBits(EntryFields(cfg, e));
    bs + TailBits(cfg, e, i + |bs|)
  }

  // ----- writing ----------------------------------------------------------------------------

  /** The fields `done` have been written from position `i` on. */
  ghost predicate Wrote(s: MemStream, was: seq<Byte>, i: nat, done: seq<Field>)
    reads s
  {
    && s.CanWrite() && Align(i) <= 8 * |was|
    && s.Data() == PutBits(was, i, FieldBits(done)) && s.WriteAt() == i + |FieldBits(done)|
  }

  method PutField(s: MemStream, width: nat, value: nat, ghost was: seq<Byte>, ghost i: nat, ghost done: seq<Field>)
    requires Wrote(s, was, i, done) && width > 0
    modifies s
    ensures Wrote(s, was, i, done + [Field(width, value)])
  {
    hide PutBits, FieldBits, ValBits, Align;
    s.PutBitsOf(width, value);
    FieldBitsConcat(done, [Field(width, value)]);
    FieldBitsOne(Field(width, value));
    PutBitsConcat(was, i, FieldBits(done), ValBits(width, value));
  }

  /** tilesToStream. */
  method TilesToStream(s: MemStream, tiles: TraySet, ghost was: seq<Byte>, ghost i: nat, ghost done: seq<Field>)
    requires Wrote(s, was, i, done)
    modifies s
    ensures Wrote(s, was, i, done + TileFields(tiles))
  {
    hide Wrote;
    var k := 0;
    assert done + TileFields(tiles)[..0] == done;
    while k < |tiles|
      invariant k <= |tiles| && Wrote(s, was, i, done + TileFields(tiles)[..k])
    {
      PutField(s, TILE_NBITS, tiles[k], was, i, done + TileFields(tiles)[..k]);
      assert done + TileFields(tiles)[..k] + [Field(TILE_NBITS, tiles[k])] == done + TileFields(tiles)[..k + 1];
      k := k + 1;
    }
    assert TileFields(tiles)[..k] == TileFields(tiles);
  }

  /** traySetToStream. */
  method TraySetToStream(s: MemStream, cfg: Cfg, ts: TraySet, ghost was: seq<Byte>, ghost i: nat, ghost done: seq<Field>)
    requires Wrote(s, was, i, done)
    modifies s
    ensures Wrote(s, was, i, done + TrayFields(cfg, ts))
  {
    hide Wrote, TileFields;
    ghost var head := Field(TilesNBits(cfg), |ts|);
    PutField(s, TilesNBits(cfg), |ts|, was, i, done);
    TilesToStream(s, ts, was, i, done + [head]);
    assert done + [head] + TileFields(ts) == done + ([head] + TileFields(ts));
  }

  /** moveInfoToStream. */
  method MoveInfoToStream(s: MemStream, cfg: Cfg, mi: MoveInfo, ghost was: seq<Byte>, ghost i: nat, ghost done: seq<Field>)
    requires Wrote(s, was, i, done) && CfgOk(cfg)
    modifies s
    ensures Wrote(s, was, i, done + MoveFields(cfg, mi))
  {
    hide Wrote;
    ghost var head := [Field(TilesNBits(cfg), |mi.tiles|), Field(NUMCOLS_NBITS_5, mi.commonCoord),
                       Field(1, if mi.isHorizontal then 1 else 0)];
    PutField(s, TilesNBits(cfg), |mi.tiles|, was, i, done);
    PutField(s, NUMCOLS_NBITS_5, mi.commonCoord, was, i, done + [head[0]]);
    PutField(s, 1, if mi.isHorizontal then 1 else 0, was, i, done + [head[0]] + [head[1]]);
    ghost var soFar := done + [head[0]] + [head[1]] + [head[2]];
    assert soFar == done + head;
    var k := 0;
    assert mi.tiles[0..] == mi.tiles;
    while k < |mi.tiles|
      invariant k <= |mi.tiles| && Wrote(s, was, i, soFar)
      invariant soFar + MoveTileFields(cfg, mi.tiles[k..]) == done + MoveFields(cfg, mi)
    {
      soFar := PutMoveTile(s, cfg, mi.tiles, k, was, i, soFar);
      k := k + 1;
    }
    assert soFar + MoveTileFields(cfg, mi.tiles[k..]) == soFar;
  }

  method PutMoveTile(s: MemStream, cfg: Cfg, tiles: seq<MoveTile>, k: nat, ghost was: seq<Byte>, ghost i: nat,
                     ghost done: seq<Field>) returns (ghost soFar: seq<Field>)
    requires Wrote(s, was, i, done) && CfgOk(cfg) && k < |tiles|
    modifies s
    ensures Wrote(s, was, i, soFar)
    ensures soFar + MoveTileFields(cfg, tiles[k + 1..]) == done + MoveTileFields(cfg, tiles[k..])
  {
    hide Wrote;
    ghost var a, b, c := Field(NUMCOLS_NBITS_5, tiles[k].varCoord), Field(cfg.bitsPerTile, tiles[k].tile % 64), Field(1, tiles[k].tile / 64);
    PutField(s, NUMCOLS_NBITS_5, tiles[k].varCoord, was, i, done);
    PutField(s, cfg.bitsPerTile, tiles[k].tile % 64, was, i, done + [a]);
    PutField(s, 1, tiles[k].tile / 64, was, i, done + [a] + [b]);
    soFar := done + [a] + [b] + [c];
    assert tiles[k..][1..] == tiles[k + 1..];
    assert soFar + MoveTileFields(cfg, tiles[k + 1..]) == done + ([a, b, c] + MoveTileFields(cfg, tiles[k + 1..]));
  }

  /** scoresToStream. */
  method ScoresToStream(s: MemStream, scores: seq<nat>, ghost was: seq<Byte>, ghost i: nat, ghost done: seq<Field>)
    requires Wrote(s, was, i, done)
    modifies s
    ensures Wrote(s, was, i, done + ScoreFields(scores))
  {
    hide Wrote;
    if 0 < |scores| {
      var maxScore := 1;
      var ii := 0;
      while ii < |scores|
        invariant ii <= |scores| && maxScore == MaxScore(scores[..ii])
        modifies {}
      {
        assert scores[..ii + 1][..ii] == scores[..ii];
        if scores[ii] > maxScore {
          maxScore := scores[ii];
        }
        ii := ii + 1;
      }
      assert scores[..ii] == scores;
      var bits := BitsForMax(maxScore);
      ghost var head := Field(4, bits);
      PutField(s, 4, bits, was, i, done);
      ii := 0;
      assert done + [head] + EachScore(bits, scores)[..0] == done + [head];
      while ii < |scores|
        invariant ii <= |scores| && Wrote(s, was, i, done + [head] + EachScore(bits, scores)[..ii])
      {
        PutField(s, bits, scores[ii], was, i, done + [head] + EachScore(bits, scores)[..ii]);
        assert done + [head] + EachScore(bits, scores)[..ii] + [Field(bits, scores[ii])]
            == done + [head] + EachScore(bits, scores)[..ii + 1];
        ii := ii + 1;
      }
      assert EachScore(bits, scores)[..ii] == EachScore(bits, scores);
      assert done + [head] + EachScore(bits, scores) == done + ([head] + EachScore(bits, scores));
    } else {
      assert done + [] == done;
    }
  }

  // ----- reading ----------------------------------------------------------------------------

  /** The fields `fs` come next, and end at position `end`. */
  ghost predicate ToRead(s: MemStream, fs: seq<Field>, end: nat)
    reads s
  {
    s.Valid() && Holds(s.Data(), s.ReadAt(), FieldBits(fs)) && FieldsOk(fs) && s.ReadAt() + |FieldBits(fs)| == end
  }

  /** Nothing about the stream but its read position has changed. */
  twostate predicate OnlyRead(s: MemStream)
    reads s
  {
    old(s.Valid()) && s.Valid() && s.Data() == old(s.Data()) && s.WriteAt() == old(s.WriteAt())
  }

  method GetField(s: MemStream, width: nat, ghost fs: seq<Field>, ghost end: nat) returns (v: nat)
    requires ToRead(s, fs, end) && fs != [] && fs[0].width == width
    modifies s
    ensures v == fs[0].value && ToRead(s, fs[1..], end) && OnlyRead(s)
  {
    hide Bit, Value, ValBits, BitsFrom, Pow2;
    HoldsSplit(s.Data(), s.ReadAt(), ValBits(width, fs[0].value), FieldBits(fs[1..]));
    HeldValue(s.Data(), s.ReadAt(), width, fs[0].value);
    v := s.GetBits(width);
  }

  /** traySetFromStream. */
  method TraySetFromStream(s: MemStream, cfg: Cfg, ghost ts: TraySet, ghost rest: seq<Field>, ghost end: nat) returns (r: TraySet)
    requires ToRead(s, TrayFields(cfg, ts) + rest, end)
    modifies s
    ensures r == ts && ToRead(s, rest, end) && OnlyRead(s)
  {
    hide ToRead;
    ghost var fs := TrayFields(cfg, ts) + rest;
    var nTiles := GetField(s, TilesNBits(cfg), fs, end);
    r := [];
    var k := 0;
    assert fs[1..] == TileFields(ts) + rest && TileFields(ts)[0..] == TileFields(ts);
    while k < nTiles
      invariant k <= nTiles == |ts| && r == ts[..k] && ToRead(s, TileFields(ts)[k..] + rest, end) && OnlyRead(s)
    {
      var tile := GetField(s, TILE_NBITS, TileFields(ts)[k..] + rest, end);
      assert (TileFields(ts)[k..] + rest)[1..] == TileFields(ts)[k + 1..] + rest;
      r := r + [tile];
      k := k + 1;
    }
    assert TileFields(ts)[k..] + rest == rest && ts[..k] == ts;
  }

  /** moveInfoFromStream. */
  method MoveInfoFromStream(s: MemStream, cfg: Cfg, ghost mi: MoveInfo, ghost rest: seq<Field>, ghost end: nat) returns (r: MoveInfo)
    requires ToRead(s, MoveFields(cfg, mi) + rest, end) && MoveOk(cfg, mi)
    modifies s
    ensures r == mi && ToRead(s, rest, end) && OnlyRead(s)
  {
    hide ToRead, Pow2;
    ghost var fs := MoveFields(cfg, mi) + rest;
    var nTiles := GetField(s, TilesNBits(cfg), fs, end);
    var commonCoord := GetField(s, NUMCOLS_NBITS_5, fs[1..], end);
    var isHorizontal := GetField(s, 1, fs[1..][1..], end);
    assert fs[1..][1..][1..] == MoveTileFields(cfg, mi.tiles) + rest;
    var tiles: seq<MoveTile> := [];
    var k := 0;
    assert mi.tiles[0..] == mi.tiles;
    while k < nTiles
      invariant k <= nTiles == |mi.tiles| && tiles == mi.tiles[..k]
      invariant ToRead(s, MoveTileFields(cfg, mi.tiles[k..]) + rest, end) && OnlyRead(s)
    {
      var t := GetMoveTile(s, cfg, mi.tiles[k..], rest, end);
      assert mi.tiles[k..][1..] == mi.tiles[k + 1..];
      tiles := tiles + [t];
      k := k + 1;
    }
    assert MoveTileFields(cfg, mi.tiles[k..]) + rest == rest && mi.tiles[..k] == mi.tiles;
    r := MoveInfo(commonCoord, isHorizontal != 0, tiles);
  }

  method GetMoveTile(s: MemStream, cfg: Cfg, ghost tiles: seq<MoveTile>, ghost rest: seq<Field>, ghost end: nat) returns (t: MoveTile)
    requires tiles != [] && ToRead(s, MoveTileFields(cfg, tiles) + rest, end) && tiles[0].tile < 128
    modifies s
    ensures t == tiles[0] && ToRead(s, MoveTileFields(cfg, tiles[1..]) + rest, end) && OnlyRead(s)
  {
    hide ToRead;
    ghost var fs := MoveTileFields(cfg, tiles) + rest;
    var varCoord := GetField(s, NUMCOLS_NBITS_5, fs, end);
    var tile := GetField(s, cfg.bitsPerTile, fs[1..], end);
    var blank := GetField(s, 1, fs[1..][1..], end);
    assert fs[1..][1..][1..] == MoveTileFields(cfg, tiles[1..]) + rest;
    if blank != 0 {
      tile := tile + 64;
    }
    t := MoveTile(varCoord, tile);
  }

  /** scoresFromStream. */
  method ScoresFromStream(s: MemStream, nScores: nat, ghost scores: seq<nat>, ghost rest: seq<Field>, ghost end: nat)
    returns (r: seq<nat>)
    requires s.Valid() && nScores == |scores| && ToRead(s, ScoreFields(scores) + rest, end)
    modifies s
    ensures r == scores && ToRead(s, rest, end) && OnlyRead(s)
  {
    hide ToRead, BitsForMax, MaxScore, EachScore;
    ghost var fs := ScoreFields(scores) + rest;
    if 0 < nScores {
      var bits := GetField(s, 4, fs, end);
      assert fs[1..] == EachScore(bits, scores) + rest;
      r := GetScores(s, nScores, bits, scores, rest, end);
    } else {
      r := [];
      assert fs == rest;
    }
  }

  method GetScores(s: MemStream, nScores: nat, bits: nat, ghost scores: seq<nat>, ghost rest: seq<Field>, ghost end: nat)
    returns (r: seq<nat>)
    requires s.Valid() && nScores == |scores| && ToRead(s, EachScore(bits, scores) + rest, end)
    modifies s
    ensures r == scores && ToRead(s, rest, end) && OnlyRead(s)
  {
    hide ToRead;
    r := [];
    var k := 0;
    ghost var each := EachScore(bits, scores);
    assert each[0..] == each;
    while k < nScores
      invariant k <= nScores && r == scores[..k] && ToRead(s, each[k..] + rest, end) && OnlyRead(s)
    {
      var score := GetField(s, bits, each[k..] + rest, end);
      assert (each[k..] + rest)[1..] == each[k + 1..] + rest;
      r := r + [score];
      k := k + 1;
    }
    assert each[k..] + rest == rest && scores[..k] == scores;
  }

  // ----- the fields fit ---------------------------------------------------------------------

  lemma SmallPowers()
    ensures Pow2(1) == 2 && Pow2(2) == 4 && Pow2(3) == 8 && Pow2(4) == 16 && Pow2(5) == 32 && Pow2(6) == 64 && Pow2(15) == 0x8000
  {
    assert Pow2(8) == 256;
    assert Pow2(12) == 4096;
  }

  lemma {:induction false} BitsForMaxBound(n: nat, b: nat)
    requires n < Pow2(b)
    ensures BitsForMax(n) <= b
  {
    if n > 0 { BitsForMaxBound(n / 2, b - 1); }
  }

  lemma {:induction false} MoveTilesFit(cfg: Cfg, tiles: seq<MoveTile>)
    requires CfgOk(cfg)
    requires forall k :: 0 <= k < |tiles| ==>
               tiles[k].varCoord < 32 && tiles[k].tile < 128 && tiles[k].tile % 64 < Pow2(cfg.bitsPerTile)
    ensures FieldsOk(MoveTileFields(cfg, tiles))
  {
    hide Pow2;
    SmallPowers();
    if tiles != [] { MoveTilesFit(cfg, tiles[1..]); }
  }

  lemma TrayFits(cfg: Cfg, ts: TraySet)
    requires TrayOk(cfg, ts)
    ensures FieldsOk(TrayFields(cfg, ts))
  {
    hide Pow2;
    SmallPowers();
  }

  lemma MoveFits(cfg: Cfg, mi: MoveInfo)
    requires CfgOk(cfg) && MoveOk(cfg, mi)
    ensures FieldsOk(MoveFields(cfg, mi))
  {
    hide Pow2;
    SmallPowers();
    MoveTilesFit(cfg, mi.tiles);
  }

  lemma ScoresFit(scores: seq<nat>)
    requires forall k :: 0 <= k < |scores| ==> scores[k] < 0x8000
    ensures FieldsOk(ScoreFields(scores))
  {
    hide Pow2;
    SmallPowers();
    if scores != [] {
      MaxScoreIs(scores);
      BitsForMaxBound(MaxScore(scores), 15);
    }
  }

  lemma {:induction false} MaxScoreIs(scores: seq<nat>)
    requires forall k :: 0 <= k < |scores| ==> scores[k] < 0x8000
    ensures MaxScore(scores) < 0x8000
  {
    if scores != [] { MaxScoreIs(scores[..|scores| - 1]); }
  }

  lemma BodyFits(cfg: Cfg, body: Body)
    requires CfgOk(cfg) && EntryOk(cfg, StackEntry(0, body))
    ensures FieldsOk(BodyFields(cfg, body))
  {
    hide Pow2, TrayFields, MoveFields, ScoreFields, TrayOk, MoveOk;
    SmallPowers();
    match body {
      case Assign(ts) => TrayFits(cfg, ts);
      case Move(mi, ts, scores) =>
        MoveFits(cfg, mi);
        TrayFits(cfg, ts);
        ScoresFit(scores);
      case Trade(a, b) =>
        TrayFits(cfg, a);
        TrayFits(cfg, b);
      case Phony(mi) => MoveFits(cfg, mi);
      case Pause(_, _, _) =>
    }
  }

  /** Every field of a proper entry fits the width it is given. */
  lemma FieldsFit(cfg: Cfg, e: StackEntry)
    requires CfgOk(cfg) && EntryOk(cfg, e)
    ensures FieldsOk(EntryFields(cfg, e)) && FieldsOk(BodyFields(cfg, e.body))
  {
    hide Pow2, BodyFields;
    SmallPowers();
    BodyFits(cfg, e.body);
  }
}
