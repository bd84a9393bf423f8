/** The stack of moves made (movestak.c): entries packed on a bit stream, a cursor that undo and
    redo move, and a cached read position. */
module MoveStacks {
  import opened Wrappers
  import opened BitStream
  import opened JenkinsHash
  import opened MemStreams
  import opened ByteFields
  import opened StackCodec

  const CUR_STREAM_VERS: nat := 0x26
  const HAVE_FLAGS_MASK: nat := 0x8000

  // ----- the list a stack stands for --------------------------------------------------------

  /** The bits of the entries one after another. */
  function Canon(cfg: Cfg, es: seq<StackEntry>): (bs: seq<bool>)
    decreases |es|
  {
    if es == [] then []
    else
      var before := Canon(cfg, es[..|es| - 1]);
      before + EntryBits(cfg, es[|es| - 1], |before|)
  }

  lemma CanonMore(cfg: Cfg, es: seq<StackEntry>, e: StackEntry)
    ensures Canon(cfg, es + [e]) == Canon(cfg, es) + EntryBits(cfg, e, |Canon(cfg, es)|)
  {
    assert (es + [e])[..|es|] == es;
  }

  /** The bits of the first `n` entries come first. */
  lemma {:induction false} CanonPrefix(cfg: Cfg, es: seq<StackEntry>, n: nat)
    requires n <= |es|
    ensures Canon(cfg, es[..n]) <= Canon(cfg, es)
    decreases |es|
  {
    hide EntryBits;
    if n == |es| {
      assert es[..n] == es;
    } else {
      CanonPrefix(cfg, es[..|es| - 1], n);
      assert es[..|es| - 1][..n] == es[..n];
    }
  }

  lemma CanonHeld(cfg: Cfg, es: seq<StackEntry>, n: nat, data: seq<Byte>)
    requires n <= |es| && Holds(data, 0, Canon(cfg, es))
    ensures Holds(data, 0, Canon(cfg, es[..n]))
    ensures Align(|Canon(cfg, es[..n])|) <= 8 * |data|
  {
    hide Canon, Bit;
    CanonPrefix(cfg, es, n);
    var all, part := Canon(cfg, es), Canon(cfg, es[..n]);
    HoldsPart(data, 0, all, 0, |part|);
    assert all[0..|part|] == part;
  }

  /** Entry `n` is held where the ones before it end. */
  lemma EntryHeld(cfg: Cfg, es: seq<StackEntry>, n: nat, data: seq<Byte>)
    requires n < |es| && Holds(data, 0, Canon(cfg, es))
    ensures Holds(data, |Canon(cfg, es[..n])|, EntryBits(cfg, es[n], |Canon(cfg, es[..n])|))
    ensures |Canon(cfg, es[..n + 1])| == |Canon(cfg, es[..n])| + |EntryBits(cfg, es[n], |Canon(cfg, es[..n])|)|
  {
    hide Canon, EntryBits, Bit;
    CanonHeld(cfg, es, n + 1, data);
    assert es[..n + 1] == es[..n] + [es[n]];
    CanonMore(cfg, es[..n], es[n]);
    HoldsSplit(data, 0, Canon(cfg, es[..n]), EntryBits(cfg, es[n], |Canon(cfg, es[..n])|));
  }

  /** The hash of a list of entries: that of a fresh stream holding just their bits. */
  function HashOf(cfg: Cfg, es: seq<StackEntry>): bv32 {
    var bs := Canon(cfg, es);
    HashBytes(HashedBytes(PutBits([], 0, bs), |bs|))
  }

  lemma HashFits(bs: seq<bool>, data: seq<Byte>)
    requires Holds(data, 0, bs)
    ensures HashedBytes(data, |bs|) == HashedBytes(PutBits([], 0, bs), |bs|)
  {
    hide Bit, PutBits;
    PutHolds([], 0, bs, []);
    assert [] + bs == bs;
    SameHashedBytes(data, PutBits([], 0, bs), bs);
  }

  // ----- one entry --------------------------------------------------------------------------

  /** The entry's bits follow what was held before, up to the write position. */
  ghost predicate Appended(s: MemStream, before: seq<bool>, bs: seq<bool>)
    reads s
  {
    s.CanWrite() && Holds(s.Data(), 0, before + bs) && s.WriteAt() == |before| + |bs|
  }

  /** The body of pushEntryImpl's switch, after the type and the player. */
  method PutBody(s: MemStream, cfg: Cfg, body: Body, ghost was: seq<Byte>, ghost i: nat, ghost done: seq<Field>)
    requires Wrote(s, was, i, done) && CfgOk(cfg)
    modifies s
    ensures Wrote(s, was, i, done + BodyFields(cfg, body))
  {
    hide Wrote, TrayFields, MoveFields, ScoreFields;
    match body {
      case Move(mi, ts, scores) =>
        MoveInfoToStream(s, cfg, mi, was, i, done);
        TraySetToStream(s, cfg, ts, was, i, done + MoveFields(cfg, mi));
        ghost var a := done + MoveFields(cfg, mi) + TrayFields(cfg, ts);
        if cfg.dup {
          PutField(s, NPLAYERS_NBITS, |scores|, was, i, a);
          ghost var n := Field(NPLAYERS_NBITS, |scores|);
          ScoresToStream(s, scores, was, i, a + [n]);
          assert a + [n] + ScoreFields(scores)
              == done + (MoveFields(cfg, mi) + TrayFields(cfg, ts) + ([n] + ScoreFields(scores)));
        } else {
          assert a == done + (MoveFields(cfg, mi) + TrayFields(cfg, ts) + []);
        }
      case Phony(mi) =>
        MoveInfoToStream(s, cfg, mi, was, i, done);
      case Assign(ts) =>
        TraySetToStream(s, cfg, ts, was, i, done);
      case Trade(a, b) =>
        TraySetToStream(s, cfg, a, was, i, done);
        TraySetToStream(s, cfg, b, was, i, done + TrayFields(cfg, a));
        assert done + TrayFields(cfg, a) + TrayFields(cfg, b) == done + (TrayFields(cfg, a) + TrayFields(cfg, b));
      case Pause(t, _, _) =>
        PutField(s, 2, t, was, i, done);
    }
  }

  /** What pushEntryImpl writes for one entry, beginning at the write position. */
  method WriteEntry(s: MemStream, cfg: Cfg, e: StackEntry, ghost before: seq<bool>)
    requires s.CanWrite() && CfgOk(cfg) && EntryOk(cfg, e) && Holds(s.Data(), 0, before) && s.WriteAt() == |before|
    modifies s
    ensures Appended(s, before, EntryBits(cfg, e, |before|))
    ensures !e.body.Pause? ==> s.Valid() && s.Data() == PutBits(old(s.Data()), |before|, EntryBits(cfg, e, |before|))
  {
    hide Holds, Wrote, BodyFields, EntryOk, FieldBits, Appended, PutBits, EntryBits, TailBits;
    ghost var was, i := s.Data(), |before|;
    ghost var a, b := Field(cfg.typeBits, MoveType(e.body)), Field(2, e.playerNum);
    NoFields(s);
    PutField(s, cfg.typeBits, MoveType(e.body), was, i, []);
    PutField(s, 2, e.playerNum, was, i, [] + [a]);
    PutBody(s, cfg, e.body, was, i, [] + [a] + [b]);
    assert [] + [a] + [b] + BodyFields(cfg, e.body) == EntryFields(cfg, e);
    FieldsHeld(s, was, before, EntryFields(cfg, e));
    if e.body.Pause? {
      PauseHead(cfg, e);
      ClearBehind(s, was, i, EntryFields(cfg, e));
      PutTail(s, cfg, e, before, FieldBits(EntryFields(cfg, e)));
    } else {
      NoTail(s, cfg, e, before);
      JustFields(s, was, i, cfg, e);
    }
  }

  /** The entry is written at `top`; the write position is put back. */
  method WriteOnTop(s: MemStream, cfg: Cfg, e: StackEntry, top: StreamPos, ghost before: seq<bool>) returns (newTop: StreamPos)
    requires s.Valid() && CfgOk(cfg) && EntryOk(cfg, e) && Holds(s.Data(), 0, before)
    requires top == PosOf(|before|) && Align(|before|) <= 8 * |s.Data()|
    modifies s
    ensures s.Valid() && Holds(s.Data(), 0, before + EntryBits(cfg, e, |before|))
    ensures newTop == PosOf(|before + EntryBits(cfg, e, |before|)|)
    ensures !e.body.Pause? ==> s.Data() == PutBits(old(s.Data()), |before|, EntryBits(cfg, e, |before|))
  {
    hide EntryBits, EntryOk, Appended, Holds, CfgOk, PutBits;
    PosRound(|before|);
    PosRound(s.WriteAt());
    var oldLoc := s.SetWritePos(top);
    WriteEntry(s, cfg, e, before);
    AppendedIs(s, before, EntryBits(cfg, e, |before|));
    newTop := s.GetWritePos();
    var _ := s.SetWritePos(oldLoc);
  }

  lemma NoFields(s: MemStream)
    requires s.CanWrite()
    ensures Wrote(s, s.Data(), s.WriteAt(), [])
  {}

  lemma FieldsHeld(s: MemStream, was: seq<Byte>, before: seq<bool>, fs: seq<Field>)
    requires Wrote(s, was, |before|, fs) && Holds(was, 0, before)
    ensures Appended(s, before, FieldBits(fs))
  {
    hide PutBits, Bit, FieldBits;
    PutHolds(was, |before|, FieldBits(fs), before);
  }

  lemma JustFields(s: MemStream, was: seq<Byte>, i: nat, cfg: Cfg, e: StackEntry)
    requires Wrote(s, was, i, EntryFields(cfg, e)) && !e.body.Pause?
    ensures s.Valid() && Align(i) <= 8 * |was| && s.Data() == PutBits(was, i, EntryBits(cfg, e, i))
  {
    hide PutBits, FieldBits, EntryFields;
    assert FieldBits(EntryFields(cfg, e)) + [] == FieldBits(EntryFields(cfg, e));
  }

  lemma NoTail(s: MemStream, cfg: Cfg, e: StackEntry, before: seq<bool>)
    requires Appended(s, before, FieldBits(EntryFields(cfg, e))) && !e.body.Pause?
    ensures Appended(s, before, EntryBits(cfg, e, |before|))
  {
    hide Holds, FieldBits, EntryFields;
    assert FieldBits(EntryFields(cfg, e)) + [] == FieldBits(EntryFields(cfg, e));
  }

  /** A pause has seven bits before its aligned part. */
  lemma PauseHead(cfg: Cfg, e: StackEntry)
    requires EntryOk(cfg, e) && e.body.Pause?
    ensures |FieldBits(EntryFields(cfg, e))| == 7
  {
    var a, b, c := Field(cfg.typeBits, 4), Field(2, e.playerNum), Field(2, e.body.pauseType);
    assert EntryFields(cfg, e) == [a] + [b] + [c];
    FieldBitsConcat([a] + [b], [c]);
    FieldBitsConcat([a], [b]);
    FieldBitsOne(a);
    FieldBitsOne(b);
    FieldBitsOne(c);
  }

  /** The gap before the aligned part is clear, whatever the stream held there before. */
  lemma ClearBehind(s: MemStream, was: seq<Byte>, i: nat, fs: seq<Field>)
    requires Wrote(s, was, i, fs) && |FieldBits(fs)| >= 7
    ensures s.CanWrite() && forall n :: s.WriteAt() <= n < Align(s.WriteAt()) ==> !Bit(s.Data(), n)
  {
    hide PutBits, Bit, FieldBits;
    TailClear(was, i, FieldBits(fs));
  }

  /** stream_putU32 and stringToStream at the end of a pause. */
  method PutTail(s: MemStream, cfg: Cfg, e: StackEntry, ghost before: seq<bool>, ghost head: seq<bool>)
    requires EntryOk(cfg, e) && e.body.Pause? && Appended(s, before, head) && head == FieldBits(EntryFields(cfg, e))
    requires forall n :: s.WriteAt() <= n < Align(s.WriteAt()) ==> !Bit(s.Data(), n)
    modifies s
    ensures Appended(s, before, EntryBits(cfg, e, |before|))
  {
    hide Bit, PutBits, FieldBits, EntryFields, VLBits, U32Bytes, Holds, Align, LenBits, EntryBits;
    ghost var j := |before| + |head|;
    ghost var gap, when := Zeros(Align(j) - j), AllBits(U32Bytes(e.body.when));
    BytesHold(s.Data(), j, before + head, U32Bytes(e.body.when));
    s.PutU32(e.body.when);
    ghost var a := before + head + gap + when;
    AlignWhole((Align(j) + 32) / 8);
    PutString(s, cfg, e.body.msg, a);
    PauseBits(cfg, e, before, head, gap, when);
  }

  lemma PauseBits(cfg: Cfg, e: StackEntry, before: seq<bool>, head: seq<bool>, gap: seq<bool>, when: seq<bool>)
    requires e.body.Pause? && head == FieldBits(EntryFields(cfg, e))
    requires var j := |before| + |head|; gap == Zeros(Align(j) - j) && when == AllBits(U32Bytes(e.body.when))
    ensures before + head + gap + when + LenBits(cfg, |e.body.msg|) + AllBits(e.body.msg)
         == before + EntryBits(cfg, e, |before|)
  {
    hide Bit, FieldBits, EntryFields, VLBits, U32Bytes, LenBits, Align;
    var len, msg := LenBits(cfg, |e.body.msg|), AllBits(e.body.msg);
    RegroupBits(before, head, gap, when, len, msg);
  }

  lemma RegroupBits(a: seq<bool>, b: seq<bool>, c: seq<bool>, d: seq<bool>, e: seq<bool>, f: seq<bool>)
    ensures a + b + c + d + e + f == a + (b + (c + d + e + f))
  {}

  /** stringToStream, at a byte boundary. */
  method PutString(s: MemStream, cfg: Cfg, msg: seq<Byte>, ghost before: seq<bool>)
    requires s.CanWrite() && Holds(s.Data(), 0, before) && s.WriteAt() == |before| && |before| % 8 == 0
    requires |msg| < if cfg.version < STREAM_VERS_NORELAY then 0x100 else 0x1_0000_0000
    modifies s
    ensures s.CanWrite() && Holds(s.Data(), 0, before + LenBits(cfg, |msg|) + AllBits(msg))
    ensures s.WriteAt() == |before| + |LenBits(cfg, |msg|)| + 8 * |msg|
  {
    hide Bit, PutBits, VLBits, Holds, Align;
    if cfg.version < STREAM_VERS_NORELAY {
      PutWhole(s, [ByteOf(|msg|)], before);
    } else {
      PutHolds(s.Data(), |before|, VLBits(|msg|), before);
      s.PutU32VL(|msg|);
    }
    PutWhole(s, msg, before + LenBits(cfg, |msg|));
  }

  method PutWhole(s: MemStream, bytes: seq<Byte>, ghost before: seq<bool>)
    requires s.CanWrite() && Holds(s.Data(), 0, before) && s.WriteAt() == |before| && |before| % 8 == 0
    modifies s
    ensures s.CanWrite() && Holds(s.Data(), 0, before + AllBits(bytes)) && s.WriteAt() == |before| + 8 * |bytes|
  {
    hide Bit, Holds, Align;
    AlignWhole(|before| / 8);
    BytesHold(s.Data(), |before|, before, bytes);
    assert before + Zeros(0) + AllBits(bytes) == before + AllBits(bytes);
    s.PutBytes(bytes);
  }

  /** The body of readEntry's switch, up to the aligned part of a pause. */
  method GetBody(s: MemStream, cfg: Cfg, moveType: nat, ghost body: Body, ghost end: nat) returns (r: Body)
    requires s.Valid() && CfgOk(cfg) && EntryOk(cfg, StackEntry(0, body)) && moveType == MoveType(body)
    requires ToRead(s, BodyFields(cfg, body), end)
    modifies s
    ensures OnlyRead(s) && ToRead(s, [], end)
    ensures r == if body.Pause? then Pause(body.pauseType, 0, []) else body
  {
    hide ToRead, TrayFields, MoveFields, ScoreFields, MoveOk, TrayOk;
    ghost var fs := BodyFields(cfg, body);
    if moveType == 1 {
      ghost var rest := if cfg.dup then [Field(NPLAYERS_NBITS, |body.scores|)] + ScoreFields(body.scores) else [];
      assert fs == MoveFields(cfg, body.moveInfo) + (TrayFields(cfg, body.newTiles) + rest);
      var mi := MoveInfoFromStream(s, cfg, body.moveInfo, TrayFields(cfg, body.newTiles) + rest, end);
      var ts := TraySetFromStream(s, cfg, body.newTiles, rest, end);
      var scores: seq<nat> := [];
      if cfg.dup {
        var nScores := GetField(s, NPLAYERS_NBITS, rest, end);
        assert rest[1..] == ScoreFields(body.scores) + [];
        scores := ScoresFromStream(s, nScores, body.scores, [], end);
      }
      r := Move(mi, ts, scores);
    } else if moveType == 3 {
      assert fs == MoveFields(cfg, body.moveInfo) + [];
      var mi := MoveInfoFromStream(s, cfg, body.moveInfo, [], end);
      r := Phony(mi);
    } else if moveType == 0 {
      assert fs == TrayFields(cfg, body.tiles) + [];
      var ts := TraySetFromStream(s, cfg, body.tiles, [], end);
      r := Assign(ts);
    } else if moveType == 2 {
      var a := TraySetFromStream(s, cfg, body.oldTiles, TrayFields(cfg, body.newTiles), end);
      assert TrayFields(cfg, body.newTiles) == TrayFields(cfg, body.newTiles) + [];
      var b := TraySetFromStream(s, cfg, body.newTiles, [], end);
      r := Trade(a, b);
    } else {
      var t := GetField(s, 2, fs, end);
      assert fs[1..] == [];
      r := Pause(t, 0, []);
    }
  }

  /** stream_getU32 and stringFromStream at the end of a pause. */
  method GetTail(s: MemStream, cfg: Cfg, pauseType: nat, ghost e: StackEntry) returns (r: Body)
    requires s.Valid() && EntryOk(cfg, e) && e.body.Pause? && pauseType == e.body.pauseType
    requires Holds(s.Data(), s.ReadAt(), TailBits(cfg, e, s.ReadAt()))
    modifies s
    ensures r == e.body && OnlyRead(s) && s.ReadAt() == old(s.ReadAt()) + |TailBits(cfg, e, old(s.ReadAt()))|
  {
    hide Bit, Holds, VLBits, U32Bytes, Align;
    ghost var j, k := s.ReadAt(), Align(s.ReadAt()) / 8;
    ghost var gap, when, len, msg := Zeros(Align(j) - j), AllBits(U32Bytes(e.body.when)), LenBits(cfg, |e.body.msg|), AllBits(e.body.msg);
    HoldsSplit(s.Data(), j, gap + when + len, msg);
    HoldsSplit(s.Data(), j, gap + when, len);
    HoldsSplit(s.Data(), j, gap, when);
    HeldBytes(s.Data(), k, U32Bytes(e.body.when));
    var w := s.GetU32();
    AlignWhole(k + 4);
    var m := GetString(s, cfg, e.body.msg);
    r := Pause(pauseType, w, m);
  }

  /** stringFromStream, at a byte boundary. */
  method GetString(s: MemStream, cfg: Cfg, ghost msg: seq<Byte>) returns (r: seq<Byte>)
    requires s.Valid() && s.ReadAt() % 8 == 0
    requires |msg| < if cfg.version < STREAM_VERS_NORELAY then 0x100 else 0x1_0000_0000
    requires Holds(s.Data(), s.ReadAt(), LenBits(cfg, |msg|)) && Holds(s.Data(), s.ReadAt() + |LenBits(cfg, |msg|)|, AllBits(msg))
    modifies s
    ensures r == msg && OnlyRead(s) && s.ReadAt() == old(s.ReadAt()) + |LenBits(cfg, |msg|)| + 8 * |msg|
  {
    hide Bit, Holds, VLBits, Align, LenBits;
    var len := GetLen(s, cfg, |msg|);
    LenWhole(cfg, |msg|);
    r := [];
    if 0 < len {
      AlignWhole(s.ReadAt() / 8);
      HeldBytes(s.Data(), s.ReadAt() / 8, msg);
      r := s.GetBytes(len);
    }
  }

  lemma LenWhole(cfg: Cfg, len: nat)
    ensures |LenBits(cfg, len)| % 8 == 0
  {}

  method GetLen(s: MemStream, cfg: Cfg, ghost n: nat) returns (len: nat)
    requires s.Valid() && s.ReadAt() % 8 == 0 && n < if cfg.version < STREAM_VERS_NORELAY then 0x100 else 0x1_0000_0000
    requires Holds(s.Data(), s.ReadAt(), LenBits(cfg, n))
    modifies s
    ensures len == n && OnlyRead(s) && s.ReadAt() == old(s.ReadAt()) + |LenBits(cfg, n)|
  {
    hide Bit, Holds, VLBits, Align, ByteOf, ByteValue;
    AlignWhole(s.ReadAt() / 8);
    if cfg.version < STREAM_VERS_NORELAY {
      HeldBytes(s.Data(), s.ReadAt() / 8, [ByteOf(n)]);
      len := s.GetU8();
      ByteRound(n);
    } else {
      len := s.GetU32VL(n);
    }
  }

  /** readEntry, where the entry `e` is held. */
  method ReadEntry(s: MemStream, cfg: Cfg, ghost e: StackEntry) returns (r: StackEntry)
    requires s.Valid() && CfgOk(cfg) && EntryOk(cfg, e) && Holds(s.Data(), s.ReadAt(), EntryBits(cfg, e, s.ReadAt()))
    modifies s
    ensures r == e && OnlyRead(s) && s.ReadAt() == old(s.ReadAt()) + |EntryBits(cfg, e, old(s.ReadAt()))|
  {
    hide Bit, FieldBits, ToRead, BodyFields, Holds, TailBits;
    ghost var fs, start := EntryFields(cfg, e), s.ReadAt();
    ghost var end := start + |FieldBits(fs)|;
    FieldsFit(cfg, e);
    HoldsSplit(s.Data(), start, FieldBits(fs), TailBits(cfg, e, end));
    StartReading(s, fs, end);
    var moveType := GetField(s, cfg.typeBits, fs, end);
    var playerNum := GetField(s, 2, fs[1..], end);
    assert fs[1..][1..] == BodyFields(cfg, e.body);
    var body := GetBody(s, cfg, moveType, e.body, end);
    DoneReading(s, end);
    if moveType == 4 {
      body := GetTail(s, cfg, body.pauseType, e);
    } else {
      NoTailBits(cfg, e, end);
    }
    r := StackEntry(playerNum, body);
  }

  lemma StartReading(s: MemStream, fs: seq<Field>, end: nat)
    requires s.Valid() && Holds(s.Data(), s.ReadAt(), FieldBits(fs)) && FieldsOk(fs) && end == s.ReadAt() + |FieldBits(fs)|
    ensures ToRead(s, fs, end)
  {}

  lemma DoneReading(s: MemStream, end: nat)
    requires ToRead(s, [], end)
    ensures s.Valid() && s.ReadAt() == end
  {}

  lemma NoTailBits(cfg: Cfg, e: StackEntry, j: nat)
    requires !e.body.Pause?
    ensures |TailBits(cfg, e, j)| == 0
  {}

  // ----- the stack --------------------------------------------------------------------------

  lemma AppendedIs(s: MemStream, before: seq<bool>, bs: seq<bool>)
    requires Appended(s, before, bs)
    ensures s.CanWrite() && Holds(s.Data(), 0, before + bs) && s.WriteAt() == |before| + |bs|
  {}

  lemma NoBitsYet(cfg: Cfg, es: seq<StackEntry>)
    ensures Canon(cfg, es[..0]) == [] && PosOf(0) == 0 && GoodPos(0) && IndexOf(0) == 0
  {}

  /** What a stack has that is saved: its counters, its stream's version and that stream's bytes. */
  datatype StackImage = StackImage(typeBits: nat, sevenTiles: bool, version: nat, highWaterMark: nat, nEntries: nat,
                                   top: StreamPos, bytes: seq<Byte>)

  /** The counters fit the widths they are saved in. */
  predicate ImageOk(m: StackImage) {
    && |m.bytes| < HAVE_FLAGS_MASK && m.version < 0x100
    && m.highWaterMark < 0x1_0000 && m.nEntries < 0x1_0000 && m.top < 0x1_0000_0000
  }

  /** The version of the stack's own stream goes only to a stream that knows of nine tiles. */
  function VersionByte(streamVersion: nat, version: nat): seq<Byte> {
    if STREAM_VERS_NINETILES <= streamVersion then [ByteOf(version)] else []
  }

  /** The version that is taken for the stack's own stream when it is loaded. */
  function VersionRead(streamVersion: nat, version: nat): nat {
    if STREAM_VERS_NINETILES <= streamVersion then version else STREAM_VERS_NINETILES - 1
  }

  function Counters(streamVersion: nat, m: StackImage): seq<Byte> {
    VersionByte(streamVersion, m.version) + U16Bytes(m.highWaterMark) + U16Bytes(m.nEntries) + U32Bytes(m.top)
  }

  function Flags(m: StackImage): seq<Byte> {
    if m.typeBits == 3 then [ByteOf(if m.sevenTiles then 1 else 0)] else []
  }

  /** What stack_writeToStream writes on a stream of version `streamVersion`. */
  function Image(streamVersion: nat, m: StackImage): seq<Byte> {
    U16Bytes(|m.bytes| + if m.typeBits == 3 then HAVE_FLAGS_MASK else 0) + Flags(m)
    + if m.bytes == [] then [] else Counters(streamVersion, m) + m.bytes
  }

  /** The layout in which a loaded stack reads its entries. */
  function LoadedCfg(streamVersion: nat, m: StackImage, bitsPerTile: nat, dup: bool): Cfg {
    Cfg(VersionRead(streamVersion, m.version), if m.typeBits == 3 then 3 else 2, bitsPerTile, dup)
  }

  /** The saved stack, read in this layout, is one of the entries `es`. */
  ghost predicate Carries(cfg: Cfg, m: StackImage, es: seq<StackEntry>) {
    && CfgOk(cfg) && |es| == m.highWaterMark && m.nEntries <= |es| && (m.bytes == [] ==> es == [])
    && (forall k :: 0 <= k < |es| ==> EntryOk(cfg, es[k]))
    && Holds(m.bytes, 0, Canon(cfg, es)) && m.top == PosOf(|Canon(cfg, es[..m.nEntries])|)
  }

  /** The size with the flag for three type bits, and then the flags. */
  method AddSize(s: MemStream, nBytes: nat, typeBits: nat, flags: nat, ghost base: seq<Byte>) returns (ghost img: seq<Byte>)
    requires s.CanWrite() && base == s.Data()[..Align(s.WriteAt()) / 8] && nBytes < HAVE_FLAGS_MASK && flags < 2
    modifies s
    ensures s.Valid() && Grown(s, base, img) && s.ReadAt() == old(s.ReadAt())
    ensures img == U16Bytes(nBytes + if typeBits == 3 then HAVE_FLAGS_MASK else 0) + if typeBits == 3 then [ByteOf(flags)] else []
  {
    hide U16Bytes, ByteOf;
    var size := nBytes + if typeBits == 3 then HAVE_FLAGS_MASK else 0;
    s.PutU16(size);
    img := U16Bytes(size);
    if typeBits == 3 {
      AddU8(s, flags, base, img);
      img := img + [ByteOf(flags)];
    } else {
      assert img + [] == img;
    }
  }

  method AddCounters(s: MemStream, streamVersion: nat, m: StackImage, ghost base: seq<Byte>, ghost before: seq<Byte>)
    requires s.Valid() && Grown(s, base, before) && ImageOk(m)
    modifies s
    ensures s.Valid() && Grown(s, base, before + Counters(streamVersion, m)) && s.ReadAt() == old(s.ReadAt())
  {
    hide U16Bytes, U32Bytes, ByteOf, Grown;
    ghost var a := before + VersionByte(streamVersion, m.version);
    if STREAM_VERS_NINETILES <= streamVersion {
      AddU8(s, m.version, base, before);
    } else {
      assert a == before;
    }
    AddU16(s, m.highWaterMark, base, a);
    AddU16(s, m.nEntries, base, a + U16Bytes(m.highWaterMark));
    AddU32(s, m.top, base, a + U16Bytes(m.highWaterMark) + U16Bytes(m.nEntries));
    assert a + U16Bytes(m.highWaterMark) + U16Bytes(m.nEntries) + U32Bytes(m.top) == before + Counters(streamVersion, m);
  }

  /** stack_writeToStream, but for the read position of the stack's own data. */
  method WriteImage(s: MemStream, streamVersion: nat, data: MemStream?, m: StackImage)
    requires s.CanWrite() && s != data && ImageOk(m)
    requires if data == null then m.bytes == [] else data.Valid() && data.ReadAt() == 0 && m.bytes == data.Data()
    modifies s, data
    ensures s.CanWrite() && s.ReadAt() == old(s.ReadAt()) && (data != null ==> data.Valid() && data.Data() == old(data.Data()))
    ensures s.Data() == old(s.Data())[..Align(old(s.WriteAt())) / 8] + Image(streamVersion, m)
  {
    hide U16Bytes, U32Bytes, ByteOf, Align, Grown, Counters, MemStream.ReadAt, MemStream.WriteAt;
    ghost var base := s.Data()[..Align(s.WriteAt()) / 8];
    AlignWhole(0);
    var nBytes := 0;
    if data != null {
      nBytes := data.GetSize();
    }
    ghost var img := AddSize(s, nBytes, m.typeBits, if m.sevenTiles then 1 else 0, base);
    if nBytes > 0 {
      AddData(s, streamVersion, data, nBytes, m, base, img);
    } else {
      GrownEnds(s, base, img);
      assert img + [] == img;
    }
  }

  /** The counters and the stack's own data. */
  method AddData(s: MemStream, streamVersion: nat, data: MemStream, nBytes: nat, m: StackImage, ghost base: seq<Byte>,
                 ghost before: seq<Byte>)
    requires s.Valid() && s != data && Grown(s, base, before) && ImageOk(m)
    requires data.Valid() && data.ReadAt() == 0 && nBytes == |data.Data()| > 0
    modifies s, data
    ensures s.CanWrite() && s.ReadAt() == old(s.ReadAt()) && data.Valid() && data.Data() == old(data.Data())
    ensures s.Data() == base + (before + (Counters(streamVersion, m) + data.Data()))
  {
    hide U16Bytes, U32Bytes, ByteOf, Align, Grown, Counters;
    AlignWhole(0);
    AddCounters(s, streamVersion, m, base, before);
    GrownEnds(s, base, before + Counters(streamVersion, m));
    s.GetFromStream(data, nBytes);
    RegroupBytes(base, before, Counters(streamVersion, m), data.Data());
  }

  lemma RegroupBytes(a: seq<Byte>, b: seq<Byte>, c: seq<Byte>, d: seq<Byte>)
    ensures a + (b + c) + d == a + (b + (c + d)) && d[0..0 + |d|] == d
  {}

  /** stack_loadFromStream's reading. */
  method ReadImage(s: MemStream, streamVersion: nat, ghost m: StackImage)
    returns (d: MemStream?, t: nat, flag: bool, v: nat, hwm: nat, n: nat, tp: StreamPos)
    requires Ahead(s, Image(streamVersion, m)) && ImageOk(m)
    modifies s
    ensures t == (if m.typeBits == 3 then 3 else 2) && flag == (m.typeBits == 3 && m.sevenTiles)
    ensures if m.bytes == [] then d == null
            else d != null && fresh(d) && d.Valid() && d.Data() == m.bytes && v == VersionRead(streamVersion, m.version)
                 && hwm == m.highWaterMark && n == m.nEntries && tp == m.top
  {
    hide U16Bytes, U32Bytes, ByteOf, Align, Ahead, Counters;
    ghost var body := if m.bytes == [] then [] else Counters(streamVersion, m) + m.bytes;
    ghost var size := |m.bytes| + if m.typeBits == 3 then HAVE_FLAGS_MASK else 0;
    assert Image(streamVersion, m) == U16Bytes(size) + (Flags(m) + body);
    var nBytes := NextU16(s, size, Flags(m) + body);
    flag := false;
    if nBytes >= HAVE_FLAGS_MASK {
      var f := NextU8(s, if m.sevenTiles then 1 else 0, body);
      flag := f % 2 == 1;
      t := 3;
      nBytes := nBytes - HAVE_FLAGS_MASK;
    } else {
      assert Flags(m) + body == body;
      t := 2;
    }
    d, v, hwm, n, tp := null, 0, 0, 0, 0;
    if nBytes > 0 {
      d, v, hwm, n, tp := ReadCounters(s, streamVersion, nBytes, m);
    }
  }

  lemma CounterParts(streamVersion: nat, m: StackImage)
    ensures var rest := U16Bytes(m.highWaterMark) + (U16Bytes(m.nEntries) + (U32Bytes(m.top) + m.bytes));
            Counters(streamVersion, m) + m.bytes == if STREAM_VERS_NINETILES <= streamVersion then [ByteOf(m.version)] + rest else rest
  {
    hide U16Bytes, U32Bytes, ByteOf;
    var rest := U16Bytes(m.highWaterMark) + (U16Bytes(m.nEntries) + (U32Bytes(m.top) + m.bytes));
    assert Counters(streamVersion, m) + m.bytes == VersionByte(streamVersion, m.version) + rest;
    assert [] + rest == rest;
  }

  method ReadCounters(s: MemStream, streamVersion: nat, nBytes: nat, ghost m: StackImage)
    returns (d: MemStream, v: nat, hwm: nat, n: nat, tp: StreamPos)
    requires Ahead(s, Counters(streamVersion, m) + m.bytes) && ImageOk(m) && nBytes == |m.bytes| > 0
    modifies s
    ensures fresh(d) && d.Valid() && d.Data() == m.bytes && v == VersionRead(streamVersion, m.version)
    ensures hwm == m.highWaterMark && n == m.nEntries && tp == m.top
  {
    hide U16Bytes, U32Bytes, ByteOf, Align, Ahead, Counters, VersionByte;
    ghost var r4 := U32Bytes(m.top) + m.bytes;
    ghost var r3 := U16Bytes(m.nEntries) + r4;
    ghost var r2 := U16Bytes(m.highWaterMark) + r3;
    CounterParts(streamVersion, m);
    v := STREAM_VERS_NINETILES - 1;
    if STREAM_VERS_NINETILES <= streamVersion {
      v := NextU8(s, m.version, r2);
    }
    hwm := NextU16(s, m.highWaterMark, r3);
    n := NextU16(s, m.nEntries, r4);
    tp := NextU32(s, m.top, m.bytes);
    d := ReadData(s, nBytes, m.bytes);
  }

  method ReadData(s: MemStream, nBytes: nat, ghost bytes: seq<Byte>) returns (d: MemStream)
    requires Ahead(s, bytes) && nBytes == |bytes| > 0
    modifies s
    ensures fresh(d) && d.Valid() && d.Data() == bytes
  {
    hide Align, Ahead;
    d := new MemStream();
    NextAre(s, bytes);
    AlignWhole(0);
    d.GetFromStream(s, nBytes);
    assert d.Data() == [] + bytes == bytes;
  }

  class StackCtxt {
    var data: MemStream?
    var version: nat
    var top: StreamPos
    var cachedPos: StreamPos
    var cacheNext: nat
    var nEntries: nat
    var bitsPerTile: nat
    var highWaterMark: nat
    var typeBits: nat
    var sevenTiles: bool
    var inDuplicateMode: bool
    /** The entries pushed, those undone and not yet overwritten included. */
    ghost var entries: seq<StackEntry>

    /** The layout of the entries there are; before the first push, that of those to come. */
    ghost function Layout(): Cfg
      reads this
    {
      if data == null then Cfg(if sevenTiles then STREAM_VERS_NINETILES - 1 else CUR_STREAM_VERS,
                               if inDuplicateMode then 3 else 2, bitsPerTile, inDuplicateMode)
      else Cfg(version, typeBits, bitsPerTile, inDuplicateMode)
    }

    /** Where entry `n` begins. */
    ghost function PosOfEntry(n: nat): StreamPos
      requires n <= |entries|
      reads this
    {
      PosOf(|Canon(Layout(), entries[..n])|)
    }

    /** All but that the top is where the next entry goes. */
    ghost predicate Readable()
      reads this, data
    {
      && CfgOk(Layout()) && |entries| == highWaterMark && cacheNext <= nEntries <= highWaterMark
      && (forall k :: 0 <= k < |entries| ==> EntryOk(Layout(), entries[k]))
      && cachedPos == PosOfEntry(cacheNext)
      && (data == null ==> entries == [])
      && (data != null ==> data.Valid() && Holds(data.Data(), 0, Canon(Layout(), entries)))
    }

    ghost predicate Valid()
      reads this, data
    {
      Readable() && top == PosOfEntry(nEntries)
    }

    /** stack_make, with stack_set7Tiles and stack_setBitsPerTile. */
    constructor (inDuplicateMode: bool, bitsPerTile: nat, sevenTiles: bool)
      requires 5 <= bitsPerTile <= 6
      ensures Valid() && data == null && entries == [] && nEntries == 0 && (!sevenTiles ==> JustMade())
      ensures this.inDuplicateMode == inDuplicateMode && this.bitsPerTile == bitsPerTile && this.sevenTiles == sevenTiles
    {
      data, version, top, cachedPos, cacheNext, nEntries, highWaterMark, typeBits := null, 0, 0, 0, 0, 0, 0, 0;
      entries := [];
      this.inDuplicateMode, this.bitsPerTile, this.sevenTiles := inDuplicateMode, bitsPerTile, sevenTiles;
    }

    /** The stream is made when the first entry is pushed. */
    method NeedStream()
      requires Valid()
      modifies this
      ensures Valid() && data != null && Layout() == old(Layout()) && entries == old(entries) && nEntries == old(nEntries)
      ensures (old(data) != null ==> data == old(data)) && (old(data) == null ==> fresh(data)) && Bytes() == old(Bytes())
      ensures cacheNext == old(cacheNext) && cachedPos == old(cachedPos)
    {
      if data == null {
        data := new MemStream();
        version := if sevenTiles then STREAM_VERS_NINETILES - 1 else CUR_STREAM_VERS;
        typeBits := if inDuplicateMode then 3 else 2;
      }
    }

    /** pushEntryImpl: the entry goes on top, and there is nothing left to redo. */
    method PushEntry(e: StackEntry)
      requires Valid() && EntryOk(Layout(), e)
      modifies this, data
      ensures Valid() && entries == old(entries)[..old(nEntries)] + [e] && nEntries == old(nEntries) + 1
      ensures Layout() == old(Layout()) && data != null && (old(data) != null ==> data == old(data)) && (old(data) == null ==> fresh(data))
      ensures var i := |Canon(Layout(), old(entries)[..old(nEntries)])|;
              !e.body.Pause? ==> Align(i) <= 8 * |old(Bytes())| && Bytes() == PutBits(old(Bytes()), i, EntryBits(Layout(), e, i))
    {
      hide PutBits, Canon, Holds, EntryBits, EntryOk, Appended, PosOf, IndexOf, Align, CfgOk, GoodPos;
      NeedStream();
      var cfg := Cfg(version, typeBits, bitsPerTile, inDuplicateMode);
      ghost var kept := entries[..nEntries];
      ghost var before := Canon(cfg, kept);
      CanonHeld(cfg, entries, nEntries, data.Data());
      top := WriteOnTop(data, cfg, e, top, before);
      CanonMore(cfg, kept, e);
      nEntries := nEntries + 1;
      highWaterMark := nEntries;
      entries := kept + [e];
      assert entries[..nEntries] == entries && entries[..cacheNext] == kept[..cacheNext] == old(entries)[..cacheNext];
    }

    /** Read the entry at the read position, where entry `n` begins. */
    method ReadNext(ghost n: nat) returns (r: StackEntry)
      requires Readable() && data != null && n < |entries| && PosOf(data.ReadAt()) == PosOfEntry(n)
      modifies data
      ensures Readable() && r == entries[n] && PosOf(data.ReadAt()) == PosOfEntry(n + 1) && data.Data() == old(data.Data())
    {
      hide Canon, Holds, EntryBits, EntryOk;
      ghost var cfg, i := Layout(), |Canon(Layout(), entries[..n])|;
      PosRound(i);
      PosRound(data.ReadAt());
      EntryHeld(cfg, entries, n, data.Data());
      var c := Cfg(version, typeBits, bitsPerTile, inDuplicateMode);
      r := ReadEntry(data, c, entries[n]);
    }

    /** setCacheReadyFor: read on from the start to entry `nn`. */
    method SetCacheReadyFor(nn: nat)
      requires Readable() && data != null && nn <= nEntries
      modifies `cacheNext, `cachedPos, data
      ensures Readable() && data.Data() == old(data.Data()) && cacheNext == nn && cachedPos == PosOfEntry(nn)
    {
      hide Canon, Holds, EntryOk;
      NoBitsYet(Layout(), entries);
      var _ := data.SetReadPos(0);
      var ii := 0;
      while ii < nn
        invariant ii <= nn && Readable() && data.Data() == old(data.Data()) && PosOf(data.ReadAt()) == PosOfEntry(ii)
        invariant cacheNext == old(cacheNext) && cachedPos == old(cachedPos)
      {
        var _ := ReadNext(ii);
        ii := ii + 1;
      }
      cacheNext := nn;
      cachedPos := data.GetReadPos();
    }

    /** stack_getNthEntry. */
    method GetNthEntry(nn: nat) returns (entry: Option<StackEntry>)
      requires Readable()
      modifies `cacheNext, `cachedPos, data
      ensures Readable() && (data != null ==> data.Data() == old(data.Data()))
      ensures entry == if nn < nEntries then Some(entries[nn]) else None
    {
      hide Canon, Holds, EntryOk, PosOf, IndexOf, GoodPos, CfgOk;
      if nn >= nEntries {
        return None;
      }
      if cacheNext != nn {
        SetCacheReadyFor(nn);
      }
      NoBitsYet(Layout(), entries);
      PosRound(|Canon(Layout(), entries[..nn])|);
      PosRound(data.ReadAt());
      var oldPos := data.SetReadPos(cachedPos);
      var e := ReadNext(nn);
      PosRound(data.ReadAt());
      cachedPos := data.SetReadPos(oldPos);
      cacheNext := cacheNext + 1;
      entry := Some(e);
    }

    /** stack_popEntry: the entry taken off stays where it is, to be redone. */
    method PopEntry() returns (entry: Option<StackEntry>)
      requires Valid()
      modifies `cacheNext, `cachedPos, `nEntries, `top, data
      ensures Valid() && (data != null ==> data.Data() == old(data.Data()))
      ensures if old(nEntries) == 0 then entry == None && nEntries == 0
              else nEntries == old(nEntries) - 1 && entry == Some(entries[nEntries])
    {
      hide Canon, Holds, EntryOk;
      if nEntries == 0 {
        return None;
      }
      var nn := nEntries - 1;
      entry := GetNthEntry(nn);
      SetCacheReadyFor(nn);
      nEntries := nn;
      top := cachedPos;
    }

    /** stack_redo. */
    method Redo() returns (canRedo: bool, entry: Option<StackEntry>)
      requires Valid()
      modifies `cacheNext, `cachedPos, `nEntries, `top, data
      ensures Valid() && (data != null ==> data.Data() == old(data.Data()))
      ensures canRedo == (old(nEntries) < highWaterMark)
      ensures if canRedo then nEntries == old(nEntries) + 1 && entry == Some(entries[old(nEntries)])
              else nEntries == old(nEntries) && entry == None
    {
      hide Canon, Holds, EntryOk;
      canRedo := nEntries + 1 <= highWaterMark;
      entry := None;
      if canRedo {
        nEntries := nEntries + 1;
        entry := GetNthEntry(nEntries - 1);
        SetCacheReadyFor(nEntries);
        top := cachedPos;
      }
    }

    // ----- saving ---------------------------------------------------------------------------

    ghost function Bytes(): seq<Byte>
      requires data != null ==> data.Valid()
      reads this, data
    {
      if data == null then [] else data.Data()
    }

    ghost function Saved(): StackImage
      requires data != null ==> data.Valid()
      reads this, data
    {
      StackImage(typeBits, sevenTiles, version, highWaterMark, nEntries, top, Bytes())
    }

    /** stack_writeToStream. */
    method WriteToStream(stream: MemStream, streamVersion: nat)
      requires Valid() && ImageOk(Saved()) && stream.CanWrite() && stream != data
      modifies stream, data
      ensures Valid() && Saved() == old(Saved()) && stream.CanWrite() && stream.ReadAt() == old(stream.ReadAt())
      ensures stream.Data() == old(stream.Data())[..Align(old(stream.WriteAt())) / 8] + Image(streamVersion, old(Saved()))
    {
      hide Canon, Holds, EntryOk, Image, Align, CfgOk, PosOf;
      var oldPos := 0;
      var bytes := [];
      if data != null {
        PosRound(data.ReadAt());
        oldPos := data.SetReadPos(0);
        bytes := data.buf[..data.nBytesWritten];
      }
      WriteImage(stream, streamVersion, data, StackImage(typeBits, sevenTiles, version, highWaterMark, nEntries, top, bytes));
      if data != null {
        var _ := data.SetReadPos(oldPos);
      }
    }

    /** Before anything has been pushed or loaded. */
    ghost predicate JustMade()
      reads this
    {
      && data == null && entries == [] && nEntries == 0 && highWaterMark == 0 && top == 0 && cachedPos == 0 && cacheNext == 0
      && !sevenTiles
    }

    /** stack_loadFromStream, into a stack just made, of any image that a stack wrote on a stream of
        this version: bytes and counters are those saved, and if they are those of the entries
        `es` in the layout now taken for them, the stack is one of those entries. */
    method LoadFromStream(stream: MemStream, streamVersion: nat, ghost m: StackImage, ghost es: seq<StackEntry>)
      requires JustMade() && 5 <= bitsPerTile <= 6 && ImageOk(m) && Ahead(stream, Image(streamVersion, m))
      modifies this, stream
      ensures (data != null ==> fresh(data) && data.Valid()) && Bytes() == m.bytes && (data == null <==> m.bytes == [])
      ensures typeBits == (if m.typeBits == 3 then 3 else 2) && sevenTiles == (m.typeBits == 3 && m.sevenTiles)
      ensures bitsPerTile == old(bitsPerTile) && inDuplicateMode == old(inDuplicateMode)
      ensures data != null ==> Layout() == LoadedCfg(streamVersion, m, bitsPerTile, inDuplicateMode)
      ensures if m.bytes == [] then highWaterMark == nEntries == top == 0
              else highWaterMark == m.highWaterMark && nEntries == m.nEntries && top == m.top
      ensures entries == es && cacheNext == 0 && cachedPos == 0
      ensures Carries(LoadedCfg(streamVersion, m, bitsPerTile, inDuplicateMode), m, es) ==> Valid()
    {
      hide Canon, Holds, EntryOk, Image, Align, PosOf, Carries, CfgOk, ImageOk, Ahead;
      var d, t, flag, v, hwm, ne, tp := ReadImage(stream, streamVersion, m);
      if t == 3 {
        sevenTiles := flag;
      }
      typeBits := t;
      if d != null {
        version, highWaterMark, nEntries, top, data := v, hwm, ne, tp, d;
      }
      entries := es;
      if Carries(LoadedCfg(streamVersion, m, bitsPerTile, inDuplicateMode), m, es) {
        LoadedIsValid(LoadedCfg(streamVersion, m, bitsPerTile, inDuplicateMode), m);
      }
    }

    lemma LoadedIsValid(cfg: Cfg, m: StackImage)
      requires 5 <= bitsPerTile <= 6 && Carries(cfg, m, entries) && cacheNext == 0 && cachedPos == 0
      requires (data != null ==> data.Valid() && Layout() == cfg) && (data == null <==> m.bytes == []) && Bytes() == m.bytes
      requires if m.bytes == [] then highWaterMark == nEntries == top == 0
               else highWaterMark == m.highWaterMark && nEntries == m.nEntries && top == m.top
      ensures Valid()
    {
      hide Canon, Holds, EntryOk;
      NoBitsYet(Layout(), entries);
    }

    /** stack_getHash. */
    method GetHash() returns (hash: bv32)
      requires Valid()
      ensures hash == if data == null then 0 else HashOf(Layout(), entries[..nEntries])
    {
      hide Canon, Holds, EntryOk, HashedBytes, HashBytes;
      hash := 0;
      if data != null {
        ghost var bs := Canon(Layout(), entries[..nEntries]);
        CanonHeld(Layout(), entries, nEntries, data.Data());
        PosRound(|bs|);
        hash := data.GetHash(top);
        HashFits(bs, data.Data());
      }
    }
  }

  // ----- what comes of it -------------------------------------------------------------------

  /** The layout of a stack that holds something, or the one its image would be read in. */
  ghost function SavedCfg(stack: StackCtxt): Cfg
    reads stack
  {
    Cfg(stack.version, if stack.typeBits == 3 then 3 else 2, stack.bitsPerTile, stack.inDuplicateMode)
  }

  /** What a stack has is saved as an image of its entries. */
  lemma SavedLayout(stack: StackCtxt)
    requires stack.Valid()
    ensures Carries(SavedCfg(stack), stack.Saved(), stack.entries)
    ensures stack.data != null ==> SavedCfg(stack) == stack.Layout()
  {
    hide EntryOk, Canon, Holds;
    var cfg := SavedCfg(stack);
    if stack.entries == [] {
      NoBitsYet(cfg, []);
      NoBitsYet(stack.Layout(), []);
      assert stack.entries[..stack.nEntries] == [][..0] == [];
      HoldsNothing(stack.Bytes());
    } else {
      assert cfg == stack.Layout();
      SomeBits(cfg, stack.entries);
      HeldSize(stack.Bytes(), Canon(cfg, stack.entries));
    }
  }

  lemma HoldsNothing(data: seq<Byte>)
    ensures Holds(data, 0, [])
  {}

  lemma HeldSize(data: seq<Byte>, bs: seq<bool>)
    requires Holds(data, 0, bs)
    ensures |bs| <= 8 * |data|
  {}

  lemma SomeBits(cfg: Cfg, es: seq<StackEntry>)
    requires es != [] && CfgOk(cfg)
    ensures |Canon(cfg, es)| > 0
  {
    hide ValBits, BodyFields, TailBits;
    var e := es[|es| - 1];
    assert |FieldBits(EntryFields(cfg, e))| >= cfg.typeBits;
  }

  /** Undoing `k` moves and redoing them leaves the stack as it was. */
  method UndoRedo(stack: StackCtxt, k: nat)
    requires stack.Valid() && k <= stack.nEntries
    modifies stack, stack.data
    ensures stack.Valid() && stack.data == old(stack.data) && stack.Bytes() == old(stack.Bytes())
    ensures stack.entries == old(stack.entries) && stack.nEntries == old(stack.nEntries) && stack.top == old(stack.top)
    ensures stack.Layout() == old(stack.Layout())
  {
    hide Canon, Holds, EntryOk, CfgOk;
    var i := 0;
    while i < k
      invariant i <= k && stack.Valid() && stack.data == old(stack.data) && stack.Bytes() == old(stack.Bytes())
      invariant stack.entries == old(stack.entries) && stack.nEntries == old(stack.nEntries) - i
      invariant stack.Layout() == old(stack.Layout())
    {
      var _ := stack.PopEntry();
      i := i + 1;
    }
    while i > 0
      invariant i <= k && stack.Valid() && stack.data == old(stack.data) && stack.Bytes() == old(stack.Bytes())
      invariant stack.entries == old(stack.entries) && stack.nEntries == old(stack.nEntries) - i
      invariant stack.Layout() == old(stack.Layout())
    {
      var _, _ := stack.Redo();
      i := i - 1;
    }
  }
}
