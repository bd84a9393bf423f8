/** How a queued message becomes a packet (comms.c) and packets become one transmission (device.c),
    and that the other side takes them apart again. */
module Framing {
  import opened Wrappers
  import opened BitStream
  import opened MemStreams
  import opened ByteFields

  const HAS_VERSION_FLAG: nat := 0xBEEF
  const COMMS_VERSION: nat := 2
  const CONN_ID_NONE: nat := 0

  /** What a packet's header says. */
  datatype Header = Header(connID: nat, channelNo: nat, msgID: nat, lastMsgRcd: nat)

  /** The side that makes or receives a packet. */
  datatype Side = Side(isServer: bool, gameID: nat, channelSeed: nat)

  predicate HeaderOk(h: Header, gameID: nat) {
    && (h.connID == CONN_ID_NONE || h.connID == gameID) && gameID < 0x1_0000_0000
    && h.channelNo < 0x1_0000 && h.msgID < 0x1_0000_0000 && h.lastMsgRcd < 0x1_0000_0000
  }

  /** makeFlags: the version, who sends, what is left out, and the length of the header. */
  function Flags(side: Side, h: Header, headerLen: nat): nat {
    COMMS_VERSION + (if h.connID == CONN_ID_NONE then 8 else 0) + (if side.isServer then 16 else 0)
    + (if h.msgID == 0 then 32 else 0) + 512 * headerLen
  }

  function SmallHeader(h: Header): seq<Byte> {
    U16Bytes(h.channelNo) + (if h.msgID != 0 then VLBytes(h.msgID) else []) + VLBytes(h.lastMsgRcd)
  }

  function BeefHeader(h: Header): seq<Byte> {
    U32Bytes(h.connID) + U16Bytes(h.channelNo) + U32Bytes(h.msgID) + U32Bytes(h.lastMsgRcd)
  }

  function Frame(side: Side, small: bool, h: Header): seq<Byte> {
    if small then U16Bytes(Flags(side, h, |SmallHeader(h)|)) + SmallHeader(h)
    else U16Bytes(HAS_VERSION_FLAG) + U16Bytes(Flags(side, h, |BeefHeader(h)|)) + BeefHeader(h)
  }

  /** A header length always fits into its seven bits. */
  lemma HeaderShort(h: Header, gameID: nat)
    requires HeaderOk(h, gameID)
    ensures 2 < |SmallHeader(h)| <= 12 && |BeefHeader(h)| == 14
  {
    hide VLBytes, U16Bytes, U32Bytes;
    assert Pow2(35) > 0x1_0000_0000 by {
      assert Pow2(8) == 256;
      PowSplit(8, 8);
      PowSplit(16, 16);
      PowSplit(3, 32);
    }
    VLBytesShort(h.msgID, 5);
    VLBytesShort(h.lastMsgRcd, 5);
  }

  /** A host's packet number 300 on a guest's channel, quoting 5, in its short and in its long form. */
  lemma KnownPackets(side: Side, h: Header)
    requires side.isServer && h == Header(0x12345678, 0x1235, 300, 5)
    ensures Frame(side, true, h) == Bytes([0x0a, 0x12, 0x12, 0x35, 0xac, 0x02, 0x05])
    ensures Frame(side, false, h) == Bytes([0xbe, 0xef, 0x1c, 0x12, 0x12, 0x34, 0x56, 0x78, 0x12, 0x35,
                                            0x00, 0x00, 0x01, 0x2c, 0x00, 0x00, 0x00, 0x05])
  {
    hide *;
    KnownHeaders(h);
    KnownFlags(side, h);
    ShortFrame(side, h, [0x12, 0x35, 0xac, 0x02, 0x05]);
    LongFrame(side, h, [0x12, 0x34, 0x56, 0x78, 0x12, 0x35, 0x00, 0x00, 0x01, 0x2c, 0x00, 0x00, 0x00, 0x05]);
  }

  lemma KnownFlags(side: Side, h: Header)
    requires side.isServer && h == Header(0x12345678, 0x1235, 300, 5)
    ensures Flags(side, h, 5) == 0x0a12 && Flags(side, h, 14) == 0x1c12
  {}

  lemma KnownHeaders(h: Header)
    requires h == Header(0x12345678, 0x1235, 300, 5)
    ensures SmallHeader(h) == Bytes([0x12, 0x35, 0xac, 0x02, 0x05])
    ensures BeefHeader(h) == Bytes([0x12, 0x34, 0x56, 0x78, 0x12, 0x35, 0x00, 0x00, 0x01, 0x2c, 0x00, 0x00, 0x00, 0x05])
  {
    hide ByteOf, U16Bytes, U32Bytes, VLBytes;
    KnownNumbers();
    assert Bytes([0x12, 0x35, 0xac, 0x02, 0x05]) == Bytes([0x12, 0x35]) + Bytes([0xac, 0x02]) + Bytes([0x05]);
    assert Bytes([0x12, 0x34, 0x56, 0x78, 0x12, 0x35, 0x00, 0x00, 0x01, 0x2c, 0x00, 0x00, 0x00, 0x05])
        == Bytes([0x12, 0x34, 0x56, 0x78]) + Bytes([0x12, 0x35]) + Bytes([0x00, 0x00, 0x01, 0x2c]) + Bytes([0x00, 0x00, 0x00, 0x05]);
  }

  lemma KnownNumbers()
    ensures U16Bytes(0x1235) == Bytes([0x12, 0x35]) && U32Bytes(0x12345678) == Bytes([0x12, 0x34, 0x56, 0x78])
    ensures U32Bytes(300) == Bytes([0x00, 0x00, 0x01, 0x2c]) && U32Bytes(5) == Bytes([0x00, 0x00, 0x00, 0x05])
    ensures VLBytes(300) == Bytes([0xac, 0x02]) && VLBytes(5) == Bytes([0x05])
  {
    hide ByteOf;
    assert VLBytes(2) == [ByteOf(2)];
  }

  lemma ShortFrame(side: Side, h: Header, v: seq<nat>)
    requires SmallHeader(h) == Bytes(v) && |v| == 5 && Flags(side, h, 5) == 0x0a12
    ensures Frame(side, true, h) == Bytes([0x0a, 0x12] + v)
  {
    hide ByteOf, SmallHeader, Flags;
    assert U16Bytes(0x0a12) == Bytes([0x0a, 0x12]);
  }

  lemma LongFrame(side: Side, h: Header, v: seq<nat>)
    requires BeefHeader(h) == Bytes(v) && |v| == 14 && Flags(side, h, 14) == 0x1c12
    ensures Frame(side, false, h) == Bytes([0xbe, 0xef, 0x1c, 0x12] + v)
  {
    hide ByteOf, BeefHeader, Flags;
    assert U16Bytes(0xbeef) == Bytes([0xbe, 0xef]) && U16Bytes(0x1c12) == Bytes([0x1c, 0x12]);
  }

  /** Numbers as bytes. */
  function Bytes(v: seq<nat>): (b: seq<Byte>)
    ensures |b| == |v| && forall i :: 0 <= i < |b| ==> b[i] == ByteOf(v[i])
  {
    seq(|v|, i requires 0 <= i < |v| => ByteOf(v[i]))
  }

  /** A small header's flags are never taken for the mark of the old format. */
  lemma FlagsApart(side: Side, h: Header, headerLen: nat)
    requires headerLen < 128
    ensures Flags(side, h, headerLen) != HAS_VERSION_FLAG && Flags(side, h, headerLen) < 0x1_0000
  {
    assert Flags(side, h, headerLen) % 8 == 2 && HAS_VERSION_FLAG % 8 == 7;
  }

  /** makeElemWithID's packing. */
  method MakeElem(side: Side, small: bool, h: Header, payload: seq<Byte>) returns (bytes: seq<Byte>)
    requires HeaderOk(h, side.gameID)
    ensures bytes == Frame(side, small, h) + payload
  {
    hide U16Bytes, U32Bytes, VLBytes, Grown, Align, Flags;
    HeaderShort(h, side.gameID);
    var hdr := new MemStream();
    Begin(hdr);
    ghost var img: seq<Byte> := [];
    if !small {
      AddU32(hdr, h.connID, [], img);
      img := img + U32Bytes(h.connID);
    }
    AddU16(hdr, h.channelNo, [], img);
    img := img + U16Bytes(h.channelNo);
    if small {
      if h.msgID != 0 {
        AddVL(hdr, h.msgID, [], img);
        img := img + VLBytes(h.msgID);
      }
      AddVL(hdr, h.lastMsgRcd, [], img);
      img := img + VLBytes(h.lastMsgRcd);
    } else {
      AddU32(hdr, h.msgID, [], img);
      AddU32(hdr, h.lastMsgRcd, [], img + U32Bytes(h.msgID));
      img := img + U32Bytes(h.msgID) + U32Bytes(h.lastMsgRcd);
    }
    assert img == if small then SmallHeader(h) else BeefHeader(h);
    bytes := Combine(side, small, h, hdr, img, payload);
  }

  lemma Begin(s: MemStream)
    requires s.CanWrite() && s.Data() == [] && s.WriteAt() == 0
    ensures Grown(s, [], [])
  {}

  /** The marker of the long form, and the flags. */
  method StartFrame(small: bool, flags: nat) returns (msg: MemStream, ghost out: seq<Byte>)
    requires flags < 0x1_0000
    ensures fresh(msg) && Grown(msg, [], out) && msg.Valid()
    ensures out == (if small then [] else U16Bytes(HAS_VERSION_FLAG)) + U16Bytes(flags)
  {
    hide U16Bytes, Grown, Align;
    msg := new MemStream();
    Begin(msg);
    out := [];
    if !small {
      AddU16(msg, HAS_VERSION_FLAG, [], out);
      WholeIs(U16Bytes(HAS_VERSION_FLAG));
      out := U16Bytes(HAS_VERSION_FLAG);
    }
    AddU16(msg, flags, [], out);
    out := out + U16Bytes(flags);
  }

  /** The third stream, which takes the flags, the header and the payload. */
  method Combine(side: Side, small: bool, h: Header, hdr: MemStream, ghost img: seq<Byte>, payload: seq<Byte>) returns (bytes: seq<Byte>)
    requires hdr.Valid() && Grown(hdr, [], img) && hdr.ReadAt() == 0 && |img| < 128
    modifies hdr
    ensures bytes == (if small then [] else U16Bytes(HAS_VERSION_FLAG)) + U16Bytes(Flags(side, h, |img|)) + img + payload
  {
    hide U16Bytes, Flags, Grown, Align;
    AlignWhole(0);
    GrownEnds(hdr, [], img);
    var headerLen := hdr.GetSize();
    var flags := Flags(side, h, headerLen);
    FlagsApart(side, h, headerLen);
    ghost var out: seq<Byte>;
    var msg;
    msg, out := StartFrame(small, flags);
    var header := hdr.GetBytes(headerLen);
    WholeIs(img);
    AddBytes(msg, header, [], out);
    out := out + img;
    AddBytes(msg, payload, [], out);
    out := out + payload;
    GrownEnds(msg, [], out);
    bytes := msg.buf[..msg.nBytesWritten];
    WholeIs(out);
  }

  lemma WholeIs(bytes: seq<Byte>)
    ensures [] + bytes == bytes && bytes[0..0 + |bytes|] == bytes
  {}

  /** Does this side take a packet of the other's?  Roles must differ, and a guest must know the
      channel. */
  predicate Takes(side: Side, fromServer: bool, channelNo: nat) {
    && side.isServer != fromServer
    && (side.isServer || channelNo == 0 || side.channelSeed == 0 || channelNo / 4 == side.channelSeed / 4)
  }

  /** A host takes what guests send and nothing else; a guest that knows its channel takes what the
      host sends on it, whatever the low two bits, or on channel 0. */
  lemma WhoTakes(side: Side, fromServer: bool, channelNo: nat)
    ensures side.isServer ==> (Takes(side, fromServer, channelNo) <==> !fromServer)
    ensures !side.isServer && side.channelSeed == 0 ==> (Takes(side, fromServer, channelNo) <==> fromServer)
    ensures !side.isServer && side.channelSeed != 0 ==>
              (Takes(side, fromServer, channelNo) <==>
                 fromServer && (channelNo == 0 || exists b: int :: -4 < b < 4 && SameBase(side.channelSeed, channelNo, b)))
  {
    if Takes(side, fromServer, channelNo) && !side.isServer && side.channelSeed != 0 && channelNo != 0 {
      assert SameBase(side.channelSeed, channelNo, channelNo % 4 - side.channelSeed % 4);
    }
  }

  /** The two differ by `b`, and only in their low two bits. */
  predicate SameBase(seed: nat, channelNo: nat, b: int) {
    channelNo == seed + b && 0 <= seed % 4 + b < 4
  }

  /** getCheckChannelSeed's tests. */
  method CheckChannel(side: Side, flags: nat, channelNo: nat) returns (valid: bool)
    requires flags != 0
    ensures valid == Takes(side, flags / 16 % 2 == 1, channelNo)
  {
    valid := true;
    if flags != 0 && side.isServer == (flags / 16 % 2 != 0) {
      valid := false;
    } else if side.isServer {
    } else if 0 == channelNo || 0 == side.channelSeed {
    } else if channelNo / 4 != side.channelSeed / 4 {
      valid := false;
    }
  }

  lemma FlagParts(side: Side, h: Header, headerLen: nat)
    requires headerLen < 128
    ensures var flags := Flags(side, h, headerLen);
            && flags % 8 == COMMS_VERSION && (flags / 8 % 2 == 1) == (h.connID == CONN_ID_NONE)
            && (flags / 16 % 2 == 1) == side.isServer && (flags / 32 % 2 == 1) == (h.msgID == 0) && flags / 512 == headerLen
  {
    PackedFields(if h.connID == CONN_ID_NONE then 1 else 0, if side.isServer then 1 else 0, if h.msgID == 0 then 1 else 0, headerLen);
  }

  lemma PackedFields(a: nat, b: nat, c: nat, n: nat)
    requires a < 2 && b < 2 && c < 2
    ensures var flags := COMMS_VERSION + 8 * a + 16 * b + 32 * c + 512 * n;
            flags % 8 == COMMS_VERSION && flags / 8 % 2 == a && flags / 16 % 2 == b && flags / 32 % 2 == c && flags / 512 == n
  {
    var flags := COMMS_VERSION + 8 * a + 16 * b + 32 * c + 512 * n;
    Parts(flags, 2, a + 2 * (b + 2 * (c + 16 * n)), 2 + 8 * a, b + 2 * (c + 16 * n), 2 + 8 * a + 16 * b, c + 16 * n,
          2 + 8 * a + 16 * b + 32 * c, n);
    Twice(a, b + 2 * (c + 16 * n));
    Twice(b, c + 16 * n);
    Twice(c, 8 * n);
  }

  lemma Parts(x: nat, r8: nat, q8: nat, r16: nat, q16: nat, r32: nat, q32: nat, r512: nat, q512: nat)
    requires r8 < 8 && r16 < 16 && r32 < 32 && r512 < 512
    requires x == r8 + 8 * q8 == r16 + 16 * q16 == r32 + 32 * q32 == r512 + 512 * q512
    ensures x % 8 == r8 && x / 8 == q8 && x / 16 == q16 && x / 32 == q32 && x / 512 == q512
  {}

  lemma Twice(r: nat, q: nat)
    requires r < 2
    ensures (r + 2 * q) % 2 == r
  {}

  /** The stream has just these bytes left. */
  ghost predicate Left(s: MemStream, bytes: seq<Byte>)
    reads s
  {
    Ahead(s, bytes) && Align(s.ReadAt()) / 8 + |bytes| == |s.Data()| && s.ReadAt() % 8 == 0
  }

  method LeftU16(s: MemStream, ghost v: nat, ghost rest: seq<Byte>) returns (r: nat)
    requires v < 0x1_0000 && Left(s, U16Bytes(v) + rest)
    modifies s
    ensures r == v && Left(s, rest)
  {
    hide U16Bytes, Align;
    AlignWhole(s.ReadAt() / 8);
    AlignWhole(s.ReadAt() / 8 + 2);
    r := NextU16(s, v, rest);
  }

  method LeftU32(s: MemStream, ghost v: nat, ghost rest: seq<Byte>) returns (r: nat)
    requires v < 0x1_0000_0000 && Left(s, U32Bytes(v) + rest)
    modifies s
    ensures r == v && Left(s, rest)
  {
    hide U32Bytes, Align;
    AlignWhole(s.ReadAt() / 8);
    AlignWhole(s.ReadAt() / 8 + 4);
    r := NextU32(s, v, rest);
  }

  /** comms_checkIncomingStream's reading of a header that `from` made. */
  method ParseHeader(s: MemStream, side: Side, ghost from: Side, ghost small: bool, ghost h: Header, ghost payload: seq<Byte>)
    returns (r: Option<Header>)
    requires HeaderOk(h, from.gameID) && side.gameID == from.gameID && Left(s, Frame(from, small, h) + payload)
    modifies s
    ensures r == if Takes(side, from.isServer, h.channelNo) then Some(h) else None
    ensures r.Some? ==> Left(s, payload)
  {
    hide U16Bytes, U32Bytes, VLBytes, Align, Flags, SmallHeader, BeefHeader, Ahead;
    HeaderShort(h, from.gameID);
    ghost var len := if small then |SmallHeader(h)| else |BeefHeader(h)|;
    FlagsApart(from, h, len);
    FlagParts(from, h, len);
    if small {
      assert Frame(from, small, h) + payload == U16Bytes(Flags(from, h, len)) + (SmallHeader(h) + payload);
    } else {
      assert Frame(from, small, h) + payload == U16Bytes(HAS_VERSION_FLAG) + (U16Bytes(Flags(from, h, len)) + (BeefHeader(h) + payload));
    }
    var flags := NextU16(s, if small then Flags(from, h, len) else HAS_VERSION_FLAG,
                         if small then SmallHeader(h) + payload else U16Bytes(Flags(from, h, len)) + (BeefHeader(h) + payload));
    if flags == HAS_VERSION_FLAG {
      r := ParseBeef(s, side, from, h, payload);
    } else if flags % 8 == COMMS_VERSION {
      r := ParseSmall(s, side, flags, from, h, payload);
    } else {
      r := None;
    }
  }

  /** parseSmallHeader: the header is taken off as a whole, then read field by field; what it may
      hold beyond the known fields is skipped. */
  method ParseSmall(s: MemStream, side: Side, flags: nat, ghost from: Side, ghost h: Header, ghost payload: seq<Byte>)
    returns (r: Option<Header>)
    requires HeaderOk(h, from.gameID) && side.gameID == from.gameID && Left(s, SmallHeader(h) + payload)
    requires |SmallHeader(h)| < 128 && flags == Flags(from, h, |SmallHeader(h)|)
    modifies s
    ensures r == if Takes(side, from.isServer, h.channelNo) then Some(h) else None
    ensures Left(s, payload)
  {
    hide U16Bytes, U32Bytes, VLBytes, Align, Flags, Ahead;
    FlagParts(from, h, |SmallHeader(h)|);
    var headerLen := flags / 512;
    LeftSplit(s, SmallHeader(h), payload);
    var hdr := new MemStream();
    AlignWhole(0);
    hdr.GetFromStream(s, headerLen);
    LeftAfter(s, payload, headerLen);
    assert hdr.Data() == [] + SmallHeader(h);
    var connID := if flags / 8 % 2 == 0 then side.gameID else CONN_ID_NONE;
    WholeAhead(hdr, SmallHeader(h));
    r := ParseFields(hdr, side, flags, connID, from, h);
  }

  /** The fields of a short header. */
  method ParseFields(hdr: MemStream, side: Side, flags: nat, connID: nat, ghost from: Side, ghost h: Header) returns (r: Option<Header>)
    requires HeaderOk(h, from.gameID) && Ahead(hdr, SmallHeader(h)) && hdr.ReadAt() % 8 == 0 && flags != 0
    requires (flags / 16 % 2 == 1) == from.isServer && (flags / 32 % 2 == 1) == (h.msgID == 0) && connID == h.connID
    modifies hdr
    ensures r == if Takes(side, from.isServer, h.channelNo) then Some(h) else None
  {
    hide U16Bytes, VLBytes, Align, Ahead;
    ghost var tail := VLBytes(h.lastMsgRcd);
    ghost var mid := if h.msgID != 0 then VLBytes(h.msgID) else [];
    assert SmallHeader(h) == U16Bytes(h.channelNo) + (mid + tail);
    var channelNo := NextU16(hdr, h.channelNo, mid + tail);
    var valid := CheckChannel(side, flags, channelNo);
    if !valid {
      return None;
    }
    var msgID := 0;
    if flags / 32 % 2 == 0 {
      msgID := NextVL(hdr, h.msgID, tail);
    } else {
      assert mid + tail == tail;
    }
    assert tail == tail + [];
    var lastMsgRcd := NextVL(hdr, h.lastMsgRcd, []);
    r := Some(Header(connID, channelNo, msgID, lastMsgRcd));
  }

  lemma BeefRegroup(a: seq<Byte>, b: seq<Byte>, c: seq<Byte>, d: seq<Byte>, e: seq<Byte>)
    ensures a + b + c + d + e == a + (b + (c + (d + e)))
  {}

  lemma BeefParts(h: Header, payload: seq<Byte>)
    ensures BeefHeader(h) + payload ==
              U32Bytes(h.connID) + (U16Bytes(h.channelNo) + (U32Bytes(h.msgID) + (U32Bytes(h.lastMsgRcd) + payload)))
  {
    BeefRegroup(U32Bytes(h.connID), U16Bytes(h.channelNo), U32Bytes(h.msgID), U32Bytes(h.lastMsgRcd), payload);
  }

  /** parseBeefHeader. */
  method ParseBeef(s: MemStream, side: Side, ghost from: Side, ghost h: Header, ghost payload: seq<Byte>) returns (r: Option<Header>)
    requires HeaderOk(h, from.gameID) && Left(s, U16Bytes(Flags(from, h, 14)) + (BeefHeader(h) + payload))
    modifies s
    ensures r == if Takes(side, from.isServer, h.channelNo) then Some(h) else None
    ensures r.Some? ==> Left(s, payload)
  {
    hide U16Bytes, U32Bytes, Align, Flags, Left, BeefHeader, Takes;
    FlagsApart(from, h, 14);
    FlagParts(from, h, 14);
    ghost var r3 := U32Bytes(h.lastMsgRcd) + payload;
    ghost var r2 := U32Bytes(h.msgID) + r3;
    ghost var r1 := U16Bytes(h.channelNo) + r2;
    BeefParts(h, payload);
    var flags := LeftU16(s, Flags(from, h, 14), U32Bytes(h.connID) + r1);
    var connID := LeftU32(s, h.connID, r1);
    var channelNo := LeftU16(s, h.channelNo, r2);
    var valid := CheckChannel(side, flags, channelNo);
    if !valid {
      return None;
    }
    var msgID := LeftU32(s, h.msgID, r3);
    var lastMsgRcd := LeftU32(s, h.lastMsgRcd, payload);
    r := Some(Header(connID, channelNo, msgID, lastMsgRcd));
  }

  lemma LeftSplit(s: MemStream, a: seq<Byte>, b: seq<Byte>)
    requires Left(s, a + b)
    ensures s.Valid() && Align(s.ReadAt()) == s.ReadAt()
    ensures var k := s.ReadAt() / 8;
            k + |a| + |b| == |s.Data()| && s.Data()[k..k + |a|] == a && s.Data()[k + |a|..] == b
  {
    AheadSplit(s, a, b);
  }

  lemma LeftAfter(s: MemStream, b: seq<Byte>, n: nat)
    requires s.Valid() && s.ReadAt() % 8 == 0 && s.ReadAt() / 8 <= |s.Data()| && s.Data()[s.ReadAt() / 8..] == b
    ensures Left(s, b)
  {}

  lemma WholeAhead(s: MemStream, bytes: seq<Byte>)
    requires s.Valid() && s.Data() == bytes && s.ReadAt() == 0
    ensures Ahead(s, bytes)
  {
    AlignWhole(0);
  }

  // ----- several packets in one transmission ------------------------------------------------

  /** One packet: its length, then its bytes. */
  function PacketBytes(packet: seq<Byte>): seq<Byte> {
    VLBytes(|packet|) + packet
  }

  function AllPackets(packets: seq<seq<Byte>>): seq<Byte> {
    if packets == [] then [] else PacketBytes(packets[0]) + AllPackets(packets[1..])
  }

  function NonEmpty(packets: seq<seq<Byte>>): seq<seq<Byte>> {
    if packets == [] then [] else (if packets[0] == [] then [] else [packets[0]]) + NonEmpty(packets[1..])
  }

  /** dvc_makeMQTTMessages, from the count of packets on.  The count is one byte wide. */
  method MakeMessages(s: MemStream, packets: seq<seq<Byte>>, ghost base: seq<Byte>)
    requires s.Valid() && Grown(s, base, []) && forall k :: 0 <= k < |packets| ==> |packets[k]| < 0x1_0000_0000
    modifies s
    ensures s.Valid() && Grown(s, base, [ByteOf(|packets| % 0x100)] + AllPackets(packets))
  {
    hide Grown, ByteOf, VLBytes;
    var nBufs := |packets| % 0x100;
    AddU8(s, nBufs, base, []);
    ghost var img := [] + [ByteOf(nBufs)];
    var k := 0;
    assert packets[0..] == packets;
    while k < |packets|
      invariant k <= |packets| && s.Valid() && Grown(s, base, img)
      invariant img + AllPackets(packets[k..]) == [ByteOf(|packets| % 0x100)] + AllPackets(packets)
    {
      assert packets[k..][0] == packets[k] && packets[k..][1..] == packets[k + 1..];
      AddVL(s, |packets[k]|, base, img);
      AddBytes(s, packets[k], base, img + VLBytes(|packets[k]|));
      assert img + VLBytes(|packets[k]|) + packets[k] + AllPackets(packets[k + 1..])
          == img + (PacketBytes(packets[k]) + AllPackets(packets[k + 1..]));
      img := img + VLBytes(|packets[k]|) + packets[k];
      k := k + 1;
    }
    assert packets[k..] == [] && img + AllPackets([]) == img;
  }

  /** dispatchMsgs for this protocol: the packets handed on.  An empty one is not handed on, and of
      256 or more only the count's low byte says how many are read. */
  method DispatchMsgs(s: MemStream, ghost packets: seq<seq<Byte>>) returns (got: seq<seq<Byte>>)
    requires forall k :: 0 <= k < |packets| ==> |packets[k]| < 0x1_0000_0000
    requires Ahead(s, [ByteOf(|packets| % 0x100)] + AllPackets(packets)) && s.ReadAt() % 8 == 0
    modifies s
    ensures got == NonEmpty(packets[..|packets| % 0x100])
  {
    hide ByteOf, VLBytes, Ahead, Align, AllPackets, NonEmpty;
    var msgCount := NextU8(s, |packets| % 0x100, AllPackets(packets));
    got := [];
    var ii := 0;
    ghost var sent := packets[..msgCount];
    assert packets[0..] == packets && sent[0..] == sent;
    while ii < msgCount
      invariant ii <= msgCount <= |packets| && s.Valid() && s.ReadAt() % 8 == 0 && Ahead(s, AllPackets(packets[ii..]))
      invariant got + NonEmpty(sent[ii..]) == NonEmpty(sent)
    {
      ghost var packet := packets[ii];
      NextOfAll(packets, sent, ii, got);
      var msg := NextMsg(s, packet, AllPackets(packets[ii + 1..]));
      if msg != [] {
        got := got + [msg];
      }
      ii := ii + 1;
    }
    NoneSent(sent[ii..], got);
  }

  lemma NextOfAll(packets: seq<seq<Byte>>, sent: seq<seq<Byte>>, ii: nat, got: seq<seq<Byte>>)
    requires ii < |sent| <= |packets| && sent == packets[..|sent|]
    ensures AllPackets(packets[ii..]) == VLBytes(|packets[ii]|) + (packets[ii] + AllPackets(packets[ii + 1..]))
    ensures got + NonEmpty(sent[ii..]) == (if packets[ii] == [] then got else got + [packets[ii]]) + NonEmpty(sent[ii + 1..])
  {
    hide VLBytes;
    assert packets[ii..][0] == packets[ii] && packets[ii..][1..] == packets[ii + 1..];
    assert sent[ii..][0] == packets[ii] && sent[ii..][1..] == sent[ii + 1..];
  }

  lemma NoneSent(packets: seq<seq<Byte>>, got: seq<seq<Byte>>)
    requires packets == []
    ensures got + NonEmpty(packets) == got
  {}

  /** One packet and its length; a length beyond the stream's end is taken for none. */
  method NextMsg(s: MemStream, ghost packet: seq<Byte>, ghost rest: seq<Byte>) returns (msg: seq<Byte>)
    requires |packet| < 0x1_0000_0000 && Ahead(s, VLBytes(|packet|) + (packet + rest)) && s.ReadAt() % 8 == 0
    modifies s
    ensures msg == packet && Ahead(s, rest) && s.Valid() && s.ReadAt() % 8 == 0
  {
    hide VLBytes, Align;
    var msgLen: int := NextVL(s, |packet|, packet + rest);
    RoomFor(s, packet, rest);
    var size := s.GetSize();
    if msgLen > size {
      msgLen := 0;
    }
    if 0 < msgLen {
      msg := NextBytes(s, msgLen, packet, rest);
    } else {
      assert packet + rest == rest;
      msg := [];
    }
  }

  lemma RoomFor(s: MemStream, a: seq<Byte>, b: seq<Byte>)
    requires Ahead(s, a + b)
    ensures s.Valid() && s.curReadPos <= s.nBytesWritten && |a| <= |s.Data()| - Align(s.ReadAt()) / 8
  {
    AheadSplit(s, a, b);
  }
}
