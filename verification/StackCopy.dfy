/** What becomes of a move stack that is copied by saving and loading it: with stack_copy
    (movestak.c:217-231), whose stream has no version, and with copyStack (model.c:2477-2491), which
    gives the stream the stack's own. */
module StackCopies {
  import opened Wrappers
  import opened BitStream
  import opened MemStreams
  import opened ByteFields
  import opened StackCodec
  import opened MoveStacks

  /** The version a stream made by mem_stream_make_raw has. */
  const RAW_STREAM_VERS: nat := 0

  // ----- what the version of a layout decides -----------------------------------------------

  /** Both versions count tiles in as many bits and write lengths alike. */
  predicate SameWidths(v: nat, w: nat) {
    (STREAM_VERS_NINETILES <= v <==> STREAM_VERS_NINETILES <= w) && (v < STREAM_VERS_NORELAY <==> w < STREAM_VERS_NORELAY)
  }

  lemma SameEntry(cfg: Cfg, v: nat, e: StackEntry, i: nat)
    requires SameWidths(cfg.version, v)
    ensures EntryBits(cfg.(version := v), e, i) == EntryBits(cfg, e, i) && (EntryOk(cfg.(version := v), e) <==> EntryOk(cfg, e))
  {
    hide BodyFields, EntryFields, FieldBits, TailBits, EntryOk;
    SameFields(cfg, v, e);
    SameTail(cfg, v, e, i + |FieldBits(EntryFields(cfg, e))|);
    SameOk(cfg, v, e);
  }

  lemma SameFields(cfg: Cfg, v: nat, e: StackEntry)
    requires SameWidths(cfg.version, v)
    ensures EntryFields(cfg.(version := v), e) == EntryFields(cfg, e)
  {
    hide BodyFields, MoveType;
    SameBody(cfg, v, e.body);
  }

  lemma SameTail(cfg: Cfg, v: nat, e: StackEntry, j: nat)
    requires SameWidths(cfg.version, v)
    ensures TailBits(cfg.(version := v), e, j) == TailBits(cfg, e, j)
  {
    hide VLBits, U32Bytes, Align, ByteOf, AllBits, Zeros;
  }

  lemma SameOk(cfg: Cfg, v: nat, e: StackEntry)
    requires SameWidths(cfg.version, v)
    ensures EntryOk(cfg.(version := v), e) <==> EntryOk(cfg, e)
  {
    hide Pow2;
    assert TilesNBits(cfg.(version := v)) == TilesNBits(cfg);
  }

  lemma SameBody(cfg: Cfg, v: nat, body: Body)
    requires SameWidths(cfg.version, v)
    ensures BodyFields(cfg.(version := v), body) == BodyFields(cfg, body)
  {
    hide ScoreFields, TileFields, MoveTileFields;
    if body.Move? || body.Phony? {
      SameTiles(cfg, v, body.moveInfo.tiles);
    }
  }

  lemma {:induction false} SameTiles(cfg: Cfg, v: nat, tiles: seq<MoveTile>)
    ensures MoveTileFields(cfg.(version := v), tiles) == MoveTileFields(cfg, tiles)
  {
    if tiles != [] {
      SameTiles(cfg, v, tiles[1..]);
    }
  }

  lemma {:induction false} SameCanon(cfg: Cfg, v: nat, es: seq<StackEntry>)
    requires SameWidths(cfg.version, v)
    ensures Canon(cfg.(version := v), es) == Canon(cfg, es)
    decreases |es|
  {
    hide EntryBits;
    if es != [] {
      SameCanon(cfg, v, es[..|es| - 1]);
      SameEntry(cfg, v, es[|es| - 1], |Canon(cfg, es[..|es| - 1])|);
    }
  }

  /** What an image carries in one layout it carries in another of the same widths. */
  lemma SameCarried(cfg: Cfg, v: nat, m: StackImage, es: seq<StackEntry>)
    requires SameWidths(cfg.version, v) && Carries(cfg, m, es)
    ensures Carries(cfg.(version := v), m, es)
  {
    hide Canon, Holds, EntryOk;
    SameCanon(cfg, v, es);
    SameCanon(cfg, v, es[..m.nEntries]);
    forall k | 0 <= k < |es|
      ensures EntryOk(cfg.(version := v), es[k])
    {
      SameEntry(cfg, v, es[k], 0);
    }
  }

  /** An entry of tiles takes fewer bits when seven are the most there can be. */
  lemma ShorterEntry(cfg: Cfg, v: nat, e: StackEntry, i: nat, j: nat)
    requires v < STREAM_VERS_NINETILES <= cfg.version && !e.body.Pause?
    ensures |EntryBits(cfg.(version := v), e, i)| < |EntryBits(cfg, e, j)|
  {
    hide FieldBits, Align, TileFields, ScoreFields, MoveFields, TrayFields;
    var seven := cfg.(version := v);
    var head := [Field(cfg.typeBits, MoveType(e.body)), Field(2, e.playerNum)];
    FieldBitsConcat(head, BodyFields(cfg, e.body));
    FieldBitsConcat(head, BodyFields(seven, e.body));
    match e.body {
      case Assign(ts) =>
        ShorterTray(cfg, v, ts);
      case Move(mi, ts, scores) =>
        var rest := if cfg.dup then [Field(NPLAYERS_NBITS, |scores|)] + ScoreFields(scores) else [];
        ShorterTray(cfg, v, ts);
        ShorterMove(cfg, v, mi);
        FieldBitsConcat(MoveFields(cfg, mi) + TrayFields(cfg, ts), rest);
        FieldBitsConcat(MoveFields(cfg, mi), TrayFields(cfg, ts));
        FieldBitsConcat(MoveFields(seven, mi) + TrayFields(seven, ts), rest);
        FieldBitsConcat(MoveFields(seven, mi), TrayFields(seven, ts));
      case Trade(a, b) =>
        ShorterTray(cfg, v, a);
        ShorterTray(cfg, v, b);
        FieldBitsConcat(TrayFields(cfg, a), TrayFields(cfg, b));
        FieldBitsConcat(TrayFields(seven, a), TrayFields(seven, b));
      case Phony(mi) =>
        ShorterMove(cfg, v, mi);
    }
  }

  lemma ShorterTray(cfg: Cfg, v: nat, ts: TraySet)
    requires v < STREAM_VERS_NINETILES <= cfg.version
    ensures |FieldBits(TrayFields(cfg.(version := v), ts))| + 1 == |FieldBits(TrayFields(cfg, ts))|
  {
    hide FieldBits;
    FirstField(Field(NTILES_NBITS_9, |ts|), TileFields(ts));
    FirstField(Field(NTILES_NBITS_7, |ts|), TileFields(ts));
  }

  lemma ShorterMove(cfg: Cfg, v: nat, mi: MoveInfo)
    requires v < STREAM_VERS_NINETILES <= cfg.version
    ensures |FieldBits(MoveFields(cfg.(version := v), mi))| + 1 == |FieldBits(MoveFields(cfg, mi))|
  {
    hide FieldBits, MoveTileFields;
    var rest := [Field(NUMCOLS_NBITS_5, mi.commonCoord), Field(1, if mi.isHorizontal then 1 else 0)] + MoveTileFields(cfg, mi.tiles);
    SameTiles(cfg, v, mi.tiles);
    FirstField(Field(NTILES_NBITS_9, |mi.tiles|), rest);
    FirstField(Field(NTILES_NBITS_7, |mi.tiles|), rest);
    assert MoveFields(cfg, mi) == [Field(NTILES_NBITS_9, |mi.tiles|)] + rest;
    assert MoveFields(cfg.(version := v), mi) == [Field(NTILES_NBITS_7, |mi.tiles|)] + rest;
  }

  lemma FirstField(fd: Field, rest: seq<Field>)
    ensures |FieldBits([fd] + rest)| == fd.width + |FieldBits(rest)|
  {
    FieldBitsConcat([fd], rest);
    FieldBitsOne(fd);
  }

  /** No entry is a pause, as in every game that is not a duplicate one. */
  predicate NoPauses(es: seq<StackEntry>) {
    forall k :: 0 <= k < |es| ==> !es[k].body.Pause?
  }

  lemma {:induction false} ShorterCanon(cfg: Cfg, v: nat, es: seq<StackEntry>)
    requires v < STREAM_VERS_NINETILES <= cfg.version && es != [] && NoPauses(es)
    ensures |Canon(cfg.(version := v), es)| < |Canon(cfg, es)|
    decreases |es|
  {
    hide EntryBits;
    var rest, e := es[..|es| - 1], es[|es| - 1];
    ShorterEntry(cfg, v, e, |Canon(cfg.(version := v), rest)|, |Canon(cfg, rest)|);
    if rest != [] {
      ShorterCanon(cfg, v, rest);
    }
  }

  /** The saved top is where the next entry goes in one of the two layouts only. */
  lemma OtherTop(cfg: Cfg, v: nat, m: StackImage, es: seq<StackEntry>)
    requires v < STREAM_VERS_NINETILES <= cfg.version && Carries(cfg, m, es) && m.nEntries > 0 && NoPauses(es[..m.nEntries])
    ensures m.top != PosOf(|Canon(cfg.(version := v), es[..m.nEntries])|)
  {
    hide Canon, Holds, EntryOk;
    ShorterCanon(cfg, v, es[..m.nEntries]);
    PosRound(|Canon(cfg, es[..m.nEntries])|);
    PosRound(|Canon(cfg.(version := v), es[..m.nEntries])|);
  }

  // ----- the two ways to copy ---------------------------------------------------------------

  /** A stack is written on a new stream of this version, and loaded into another. */
  method SaveAndLoad(dest: StackCtxt, stack: StackCtxt, streamVersion: nat)
    requires stack.Valid() && ImageOk(stack.Saved()) && dest != stack && dest.JustMade()
    requires dest.bitsPerTile == stack.bitsPerTile && dest.inDuplicateMode == stack.inDuplicateMode
    modifies dest, stack.data
    ensures stack.Valid() && stack.Saved() == old(stack.Saved())
    ensures (dest.data != null ==> fresh(dest.data) && dest.data.Valid()) && dest.Bytes() == stack.Bytes()
    ensures dest.nEntries == stack.nEntries && dest.highWaterMark == stack.highWaterMark && dest.top == stack.top
    ensures dest.bitsPerTile == stack.bitsPerTile && dest.inDuplicateMode == stack.inDuplicateMode
    ensures dest.typeBits == (if stack.typeBits == 3 then 3 else 2) && dest.sevenTiles == (stack.typeBits == 3 && stack.sevenTiles)
    ensures (dest.data == null <==> stack.Bytes() == []) && dest.entries == stack.entries && dest.cacheNext == 0 && dest.cachedPos == 0
    ensures dest.data != null ==> dest.version == VersionRead(streamVersion, stack.version)
    ensures var cfg := LoadedCfg(streamVersion, stack.Saved(), stack.bitsPerTile, stack.inDuplicateMode);
            Carries(cfg, stack.Saved(), stack.entries) ==> dest.Valid()
    ensures streamVersion >= STREAM_VERS_NINETILES ==> dest.Valid() && (stack.Bytes() != [] ==> dest.Layout() == stack.Layout())
  {
    hide Canon, Holds, EntryOk, Align, Image, Carries;
    ghost var m, es := stack.Saved(), stack.entries;
    SavedLayout(stack);
    CarriesNone(SavedCfg(stack), m, es);
    AlignWhole(0);
    var s := new MemStream();
    stack.WriteToStream(s, streamVersion);
    WholeIsAhead(s, Image(streamVersion, m));
    dest.LoadFromStream(s, streamVersion, m, es);
  }

  /** stack_copy.  Its stream has version 0, so the version of the stack's own stream is not
      written, and the copy reads the same bytes as those of a stack with at most seven tiles:
      right exactly for a stack of that layout. */
  method CopyStack(stack: StackCtxt) returns (copy: StackCtxt)
    requires stack.Valid() && ImageOk(stack.Saved())
    modifies stack.data
    ensures stack.Valid() && stack.Saved() == old(stack.Saved())
    ensures fresh(copy) && (copy.data != null ==> fresh(copy.data) && copy.data.Valid()) && copy.Bytes() == stack.Bytes()
    ensures copy.nEntries == stack.nEntries && copy.highWaterMark == stack.highWaterMark && copy.top == stack.top
    ensures copy.entries == stack.entries && copy.cacheNext == 0 && copy.cachedPos == 0
    ensures stack.Bytes() != [] ==> copy.Layout() == stack.Layout().(version := STREAM_VERS_NINETILES - 1)
    ensures stack.Bytes() != [] ==> (copy.Layout() == stack.Layout() <==> stack.version == STREAM_VERS_NINETILES - 1)
    ensures stack.data == null ==> (copy.Layout() == stack.Layout() <==> stack.typeBits == 3 || !stack.sevenTiles)
    ensures stack.Bytes() == [] || stack.version < STREAM_VERS_NINETILES ==> copy.Valid()
    ensures stack.nEntries > 0 && NoPauses(stack.entries[..stack.nEntries]) ==>
              (copy.Valid() <==> stack.version < STREAM_VERS_NINETILES)
  {
    hide Canon, Holds, EntryOk, Carries;
    ghost var m, es, cfg := stack.Saved(), stack.entries, SavedCfg(stack);
    copy := new StackCtxt(stack.inDuplicateMode, stack.bitsPerTile, false);
    SavedLayout(stack);
    CarriesNone(cfg, m, es);
    CarriedSeven(cfg, m, es);
    SaveAndLoad(copy, stack, RAW_STREAM_VERS);
    SavedLayout(stack);
  }

  /** What an image carries when it is read in the layout for seven tiles. */
  lemma CarriedSeven(cfg: Cfg, m: StackImage, es: seq<StackEntry>)
    requires Carries(cfg, m, es)
    ensures m.bytes == [] || cfg.version < STREAM_VERS_NINETILES ==> Carries(cfg.(version := STREAM_VERS_NINETILES - 1), m, es)
    ensures m.nEntries <= |es|
    ensures cfg.version >= STREAM_VERS_NINETILES && m.nEntries > 0 && NoPauses(es[..m.nEntries]) ==>
              m.top != PosOf(|Canon(cfg.(version := STREAM_VERS_NINETILES - 1), es[..m.nEntries])|)
  {
    CarriesNone(cfg, m, es);
    hide Canon, Holds, EntryOk, Carries;
    if m.bytes == [] {
      EmptyCarried(cfg, STREAM_VERS_NINETILES - 1, m, es);
    } else if cfg.version < STREAM_VERS_NINETILES {
      SameCarried(cfg, STREAM_VERS_NINETILES - 1, m, es);
    }
    if cfg.version >= STREAM_VERS_NINETILES && m.nEntries > 0 && NoPauses(es[..m.nEntries]) {
      OtherTop(cfg, STREAM_VERS_NINETILES - 1, m, es);
    }
  }

  lemma WholeIsAhead(s: MemStream, img: seq<Byte>)
    requires s.Valid() && s.ReadAt() == 0 && s.Data() == [] + img
    ensures Ahead(s, img)
  {
    AlignWhole(0);
    assert s.Data()[0..] == img;
  }

  lemma CarriesNone(cfg: Cfg, m: StackImage, es: seq<StackEntry>)
    requires Carries(cfg, m, es)
    ensures |es| == m.highWaterMark && m.nEntries <= |es| && (m.bytes == [] ==> es == [] && m.top == 0)
  {}

  lemma EmptyCarried(cfg: Cfg, v: nat, m: StackImage, es: seq<StackEntry>)
    requires Carries(cfg, m, es) && m.bytes == []
    ensures Carries(cfg.(version := v), m, es)
  {}

  /** copyStack of model.c, into a stack just made: nothing is lost. */
  method CopyMoves(dest: StackCtxt, stack: StackCtxt)
    requires stack.Valid() && ImageOk(stack.Saved()) && stack.data != null
    requires dest != stack && dest.JustMade() && dest.bitsPerTile == stack.bitsPerTile && dest.inDuplicateMode == stack.inDuplicateMode
    modifies dest, stack.data
    ensures stack.Valid() && stack.Saved() == old(stack.Saved())
    ensures dest.Valid() && dest.Bytes() == stack.Bytes() && dest.entries == stack.entries
    ensures dest.nEntries == stack.nEntries && dest.highWaterMark == stack.highWaterMark && dest.top == stack.top
    ensures stack.Bytes() != [] ==> (dest.Layout() == stack.Layout() <==> stack.version >= STREAM_VERS_NINETILES - 1)
  {
    hide Canon, Holds, EntryOk, Carries;
    SavedLayout(stack);
    CarriedSeven(SavedCfg(stack), stack.Saved(), stack.entries);
    SaveAndLoad(dest, stack, stack.version);
  }

  // ----- a stack of one tile ----------------------------------------------------------------

  /** One tile put down by a stack of the current version, as a stack of the older one reads it:
      the count's highest bit is taken for the lowest of the tile. */
  lemma OneTileMisread(cfg: Cfg, v: nat, p: nat, t: nat, i: nat)
    requires v < STREAM_VERS_NINETILES <= cfg.version && t < 64
    ensures EntryBits(cfg, StackEntry(p, Assign([t])), i)
         == EntryBits(cfg.(version := v), StackEntry(p, Assign([2 * t % 64])), i) + [t >= 32]
  {
    hide FieldBits, ValBits;
    var head := [Field(cfg.typeBits, 0), Field(2, p)];
    var four, three := [Field(NTILES_NBITS_9, 1), Field(TILE_NBITS, t)], [Field(NTILES_NBITS_7, 1), Field(TILE_NBITS, 2 * t % 64)];
    assert TrayFields(cfg, [t]) == four && TrayFields(cfg.(version := v), [2 * t % 64]) == three;
    FieldBitsConcat(head, four);
    FieldBitsConcat(head, three);
    TwoFields(four[0], four[1]);
    TwoFields(three[0], three[1]);
    CountAndTile(t);
    assert FieldBits(head + four) == FieldBits(head + three) + [t >= 32];
  }

  lemma TwoFields(a: Field, b: Field)
    ensures FieldBits([a, b]) == ValBits(a.width, a.value) + ValBits(b.width, b.value)
  {
    hide ValBits;
    assert [a, b] == [a] + [b];
    FieldBitsConcat([a], [b]);
    FieldBitsOne(a);
    FieldBitsOne(b);
  }

  lemma CountAndTile(t: nat)
    requires t < 64
    ensures ValBits(4, 1) + ValBits(6, t) == ValBits(3, 1) + ValBits(6, 2 * t % 64) + [t >= 32]
  {
    hide ValBits, Pow2;
    OneInBits(3);
    OneInBits(4);
    SixtyFour();
    Doubled(6, t);
    HighBit(6, 2 * t);
    if t >= 32 {
      WrappedBits(6, 2 * t - 64);
    }
    ShiftedByOne([true, false, false], ValBits(6, t), ValBits(6, 2 * t), t >= 32);
  }

  lemma SixtyFour()
    ensures Pow2(6) == 64 && Pow2(7) == 128
  {}

  lemma ShiftedByOne(a: seq<bool>, b: seq<bool>, c: seq<bool>, v: bool)
    requires [false] + b == c + [v]
    ensures a + [false] + b == a + c + [v]
  {
    assert a + [false] + b == a + ([false] + b);
  }

  lemma OneInBits(n: nat)
    requires n == 3 || n == 4
    ensures ValBits(n, 1) == if n == 3 then [true, false, false] else [true, false, false, false]
  {
    assert ValBits(1, 0) == [false] && ValBits(2, 0) == [false, false] && ValBits(3, 0) == [false, false, false];
  }

  lemma Doubled(n: nat, v: nat)
    ensures ValBits(n + 1, 2 * v) == [false] + ValBits(n, v)
  {}

  lemma {:induction false} HighBit(n: nat, v: nat)
    requires v < Pow2(n + 1)
    ensures ValBits(n + 1, v) == ValBits(n, v) + [v >= Pow2(n)]
  {
    if n > 0 {
      HighBit(n - 1, v / 2);
    }
  }

  lemma {:induction false} WrappedBits(n: nat, v: nat)
    ensures ValBits(n, v + Pow2(n)) == ValBits(n, v)
  {
    if n > 0 {
      WrappedBits(n - 1, v / 2);
    }
  }

  /** A stack to which one tile has been assigned. */
  method OneTileStack(t: nat) returns (stack: StackCtxt)
    requires t < 64
    ensures fresh(stack) && stack.data != null && fresh(stack.data) && stack.Valid() && ImageOk(stack.Saved())
    ensures stack.entries == [StackEntry(0, Assign([t]))] && stack.nEntries == 1 && stack.Bytes() != []
    ensures stack.Layout() == Cfg(CUR_STREAM_VERS, 2, 5, false)
  {
    hide Canon, Holds, EntryBits, PutBits, PosOf;
    stack := new StackCtxt(false, 5, false);
    ghost var cfg := stack.Layout();
    var e := StackEntry(0, Assign([t]));
    NoBitsYet(cfg, stack.entries);
    stack.PushEntry(e);
    assert stack.entries == [e] && stack.entries[..1] == [e];
    CanonOne(cfg, e);
    OneTileSize(cfg, e);
  }

  /** Such a stack, and what stack_copy makes of it. */
  method CopyMisreads(t: nat) returns (original: Option<StackEntry>, copied: Option<StackEntry>)
    requires t < 64
    ensures original == Some(StackEntry(0, Assign([t]))) && copied == Some(StackEntry(0, Assign([2 * t % 64])))
  {
    hide Canon, Holds, EntryBits, PosOf, ImageOk, Carries;
    var stack := OneTileStack(t);
    var copy := CopyStack(stack);
    OneTileCopied(stack.Layout(), t, stack.Bytes());
    original := stack.GetNthEntry(0);
    ghost var r := StackEntry(0, Assign([2 * t % 64]));
    copy.entries := [r];
    NoBitsYet(copy.Layout(), [r]);
    copied := copy.GetNthEntry(0);
  }

  lemma CanonOne(cfg: Cfg, e: StackEntry)
    ensures Canon(cfg, [e]) == EntryBits(cfg, e, 0) && Canon(cfg, []) == []
  {
    hide EntryBits;
    CanonMore(cfg, [], e);
    assert [] + [e] == [e];
    assert [] + EntryBits(cfg, e, 0) == EntryBits(cfg, e, 0);
  }

  /** Its two bytes hold fourteen bits. */
  lemma OneTileSize(cfg: Cfg, e: StackEntry)
    requires cfg == Cfg(CUR_STREAM_VERS, 2, 5, false) && e.body.Assign? && |e.body.tiles| == 1
    ensures |EntryBits(cfg, e, 0)| == 14 && PosOf(14) == 22 && |PutBits([], 0, EntryBits(cfg, e, 0))| == 2
  {
    hide FieldBits, PutBits;
    var head, tray := [Field(2, 0), Field(2, e.playerNum)], [Field(NTILES_NBITS_9, 1), Field(TILE_NBITS, e.body.tiles[0])];
    assert TrayFields(cfg, e.body.tiles) == tray;
    FieldBitsConcat(head, tray);
    TwoFields(head[0], head[1]);
    TwoFields(tray[0], tray[1]);
  }

  lemma OneTileCopied(cfg: Cfg, t: nat, data: seq<Byte>)
    requires cfg == Cfg(CUR_STREAM_VERS, 2, 5, false) && t < 64 && Holds(data, 0, Canon(cfg, [StackEntry(0, Assign([t]))]))
    ensures Holds(data, 0, Canon(cfg.(version := STREAM_VERS_NINETILES - 1), [StackEntry(0, Assign([2 * t % 64]))]))
  {
    hide EntryBits, Holds, Canon;
    var e, r, seven := StackEntry(0, Assign([t])), StackEntry(0, Assign([2 * t % 64])), cfg.(version := STREAM_VERS_NINETILES - 1);
    CanonOne(cfg, e);
    CanonOne(seven, r);
    OneTileMisread(cfg, STREAM_VERS_NINETILES - 1, 0, t, 0);
    HoldsSplit(data, 0, EntryBits(seven, r, 0), [t >= 32]);
  }
}
