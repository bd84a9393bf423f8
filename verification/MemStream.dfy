/** The memory stream (memstream.c): a growable byte buffer with a read and a write position, each
    of which may stand inside a byte. */
module MemStreams {
  import opened Wrappers
  import opened BitStream
  import opened JenkinsHash

  const STREAM_INCR_SIZE: nat := 100

  /** XWStreamPos, (byte << 3) | bit.  Inside a byte the byte part already counts that byte. */
  type StreamPos = nat

  function PosOf(i: nat): StreamPos {
    if i % 8 == 0 then i else i + 8
  }

  predicate GoodPos(pos: StreamPos) { pos % 8 == 0 || pos > 8 }

  function IndexOf(pos: StreamPos): nat
    requires GoodPos(pos)
  {
    if pos % 8 == 0 then pos else pos - 8
  }

  lemma PosRound(i: nat)
    ensures GoodPos(PosOf(i)) && IndexOf(PosOf(i)) == i
  {}

  /** The `n` bits from position `i` on. */
  function BitsFrom(data: seq<Byte>, i: nat, n: nat): (bs: seq<bool>)
    requires i + n <= 8 * |data|
    ensures |bs| == n && forall k :: 0 <= k < n ==> bs[k] == Bit(data, i + k)
  {
    seq(n, k requires 0 <= k < n => Bit(data, i + k))
  }

  lemma HeldBits(data: seq<Byte>, i: nat, bs: seq<bool>)
    requires Holds(data, i, bs)
    ensures i + |bs| <= 8 * |data| && BitsFrom(data, i, |bs|) == bs
  {}

  lemma HeldValue(data: seq<Byte>, i: nat, n: nat, v: nat)
    requires Holds(data, i, ValBits(n, v)) && v < Pow2(n)
    ensures i + n <= 8 * |data| && Value(BitsFrom(data, i, n)) == v
  {
    HeldBits(data, i, ValBits(n, v));
    ValueOfBits(n, v);
  }

  function U16Bytes(v: nat): (bs: seq<Byte>)
    ensures |bs| == 2
  {
    [ByteOf(v / 0x100 % 0x100), ByteOf(v % 0x100)]
  }

  function U32Bytes(v: nat): (bs: seq<Byte>)
    ensures |bs| == 4
  {
    U16Bytes(v / 0x1_0000 % 0x1_0000) + U16Bytes(v % 0x1_0000)
  }

  lemma U16Value(u: nat)
    requires u < 0x1_0000
    ensures 0x100 * ByteValue(U16Bytes(u)[0]) + ByteValue(U16Bytes(u)[1]) == u
  {
    hide ByteOf, ByteValue;
    ByteRound(u / 0x100 % 0x100);
    ByteRound(u % 0x100);
  }

  lemma U32Value(u: nat)
    requires u < 0x1_0000_0000
    ensures 0x1_0000 * (0x100 * ByteValue(U32Bytes(u)[0]) + ByteValue(U32Bytes(u)[1]))
            + 0x100 * ByteValue(U32Bytes(u)[2]) + ByteValue(U32Bytes(u)[3]) == u
  {
    hide ByteOf, ByteValue, U16Bytes;
    U16Value(u / 0x1_0000);
    U16Value(u % 0x1_0000);
  }

  class MemStream {
    var buf: seq<Byte>
    var nBytesWritten: nat
    var curReadPos: nat
    var curWritePos: nat
    var nReadBits: nat
    var nWriteBits: nat

    ghost predicate Valid()
      reads this
    {
      && nBytesWritten <= |buf| && nReadBits < 8 && nWriteBits < 8
      && (nWriteBits > 0 ==> curWritePos > 0) && (nReadBits > 0 ==> curReadPos > 0)
    }

    /** The write position is not beyond what has been written. */
    ghost predicate CanWrite()
      reads this
    {
      Valid() && curWritePos <= nBytesWritten
    }

    /** The bytes written. */
    ghost function Data(): (d: seq<Byte>)
      requires Valid()
      reads this
      ensures |d| == nBytesWritten
    {
      buf[..nBytesWritten]
    }

    /** The write position, counted in bits. */
    ghost function WriteAt(): (i: nat)
      requires Valid()
      reads this
      ensures Align(i) == 8 * curWritePos
    {
      if nWriteBits == 0 then 8 * curWritePos else 8 * (curWritePos - 1) + nWriteBits
    }

    ghost function ReadAt(): (i: nat)
      requires Valid()
      reads this
      ensures Align(i) == 8 * curReadPos
    {
      if nReadBits == 0 then 8 * curReadPos else 8 * (curReadPos - 1) + nReadBits
    }

    constructor ()
      ensures CanWrite() && Data() == [] && WriteAt() == 0 && ReadAt() == 0
    {
      buf, nBytesWritten, curReadPos, curWritePos, nReadBits, nWriteBits := [], 0, 0, 0, 0, 0;
    }

    // ----- positions ------------------------------------------------------------------------

    /** getPos. */
    method GetWritePos() returns (pos: StreamPos)
      requires Valid()
      ensures pos == PosOf(WriteAt())
    {
      pos := 8 * curWritePos + nWriteBits;
    }

    method GetReadPos() returns (pos: StreamPos)
      requires Valid()
      ensures pos == PosOf(ReadAt())
    {
      pos := 8 * curReadPos + nReadBits;
    }

    /** setPos. */
    method SetWritePos(newpos: StreamPos) returns (oldPos: StreamPos)
      requires Valid() && GoodPos(newpos)
      modifies `nWriteBits, `curWritePos
      ensures Valid() && Data() == old(Data()) && oldPos == PosOf(old(WriteAt())) && WriteAt() == IndexOf(newpos)
    {
      oldPos := GetWritePos();
      nWriteBits := newpos % 8;
      curWritePos := newpos / 8;
    }

    method SetReadPos(newpos: StreamPos) returns (oldPos: StreamPos)
      requires Valid() && GoodPos(newpos)
      modifies `nReadBits, `curReadPos
      ensures Valid() && Data() == old(Data()) && oldPos == PosOf(old(ReadAt())) && ReadAt() == IndexOf(newpos)
      ensures WriteAt() == old(WriteAt())
    {
      oldPos := GetReadPos();
      nReadBits := newpos % 8;
      curReadPos := newpos / 8;
    }

    // ----- writing --------------------------------------------------------------------------

    /** putBytes.  Writing into the middle cuts off what followed. */
    method PutBytes(bytes: seq<Byte>)
      requires CanWrite()
      modifies `buf, `nBytesWritten, `curWritePos, `nWriteBits
      ensures CanWrite() && Data() == old(Data())[..Align(old(WriteAt())) / 8] + bytes
      ensures WriteAt() == Align(old(WriteAt())) + 8 * |bytes| && ReadAt() == old(ReadAt())
    {
      hide Align;
      if nWriteBits != 0 {
        nWriteBits := 0;
      }
      var newSize := nBytesWritten + |bytes|;
      if curWritePos < nBytesWritten {
        newSize := newSize - (nBytesWritten - curWritePos);
      }
      assert newSize == curWritePos + |bytes|;
      ghost var was := buf;
      Grow(newSize);
      Spliced(was, buf, nBytesWritten, curWritePos, bytes);
      buf := buf[..curWritePos] + bytes + buf[curWritePos + |bytes|..];
      nBytesWritten := newSize;
      curWritePos := curWritePos + |bytes|;
    }

    /** There is room for so many bytes. */
    method Grow(newSize: nat)
      modifies `buf
      ensures old(buf) <= buf && newSize <= |buf|
    {
      if newSize > |buf| {
        buf := buf + seq(newSize + STREAM_INCR_SIZE - |buf|, _ => 0);
      }
    }

    /** putOneBit. */
    method PutOneBit(bit: bool)
      requires CanWrite()
      modifies `buf, `nBytesWritten, `curWritePos, `nWriteBits
      ensures CanWrite() && Data() == PutBit(old(Data()), old(WriteAt()), bit)
      ensures WriteAt() == old(WriteAt()) + 1 && ReadAt() == old(ReadAt())
    {
      hide SetBit, PutBit, Align;
      ghost var data, i := Data(), WriteAt();
      StartByte();
      PutInByte(data, i, Data(), bit);
      var rack := SetBit(buf[curWritePos - 1], nWriteBits, bit);
      buf := buf[curWritePos - 1 := rack];
      nWriteBits := (nWriteBits + 1) % 8;
    }

    /** The byte the next bit goes to: a cleared one if none has been begun. */
    method StartByte()
      requires CanWrite()
      modifies `buf, `nBytesWritten, `curWritePos, `nWriteBits
      ensures Valid() && curWritePos == old(WriteAt()) / 8 + 1 <= nBytesWritten && nWriteBits == old(WriteAt()) % 8
      ensures Data() == ByteReady(old(Data()), old(WriteAt())) && ReadAt() == old(ReadAt())
    {
      hide Align;
      if nWriteBits == 0 {
        if curWritePos == nBytesWritten {
          PutBytes([0]);
        } else {
          buf := buf[curWritePos := 0];
          curWritePos := curWritePos + 1;
        }
      }
    }

    /** putBits. */
    method PutBitsOf(nBits: nat, data: nat)
      requires CanWrite() && nBits > 0
      modifies `buf, `nBytesWritten, `curWritePos, `nWriteBits
      ensures CanWrite() && Data() == PutBits(old(Data()), old(WriteAt()), ValBits(nBits, data))
      ensures WriteAt() == old(WriteAt()) + nBits && ReadAt() == old(ReadAt())
    {
      hide PutBit, PutBits, ValBits;
      ghost var bs, was, i := ValBits(nBits, data), Data(), WriteAt();
      var left, rest := nBits, data;
      ghost var k := 0;
      assert bs[..0] == [] && bs[0..] == bs;
      PutNothing(was, i);
      while left > 0
        invariant CanWrite() && k + left == nBits && bs[k..] == ValBits(left, rest)
        invariant Data() == PutBits(was, i, bs[..k]) && WriteAt() == i + k && ReadAt() == old(ReadAt())
      {
        PutOneBit(rest % 2 == 1);
        ValBitsNext(left, rest);
        assert bs[k] == bs[k..][0] && bs[k + 1..] == bs[k..][1..];
        PutBitsMore(was, i, bs, k);
        rest := rest / 2;
        left := left - 1;
        k := k + 1;
      }
      assert bs[..k] == bs;
    }

    method PutU8(v: nat)
      requires CanWrite() && v < 0x100
      modifies `buf, `nBytesWritten, `curWritePos, `nWriteBits
      ensures CanWrite() && Data() == old(Data())[..Align(old(WriteAt())) / 8] + [ByteOf(v)]
      ensures WriteAt() == Align(old(WriteAt())) + 8 && ReadAt() == old(ReadAt())
    {
      PutBytes([ByteOf(v)]);
    }

    method PutU16(v: nat)
      requires CanWrite() && v < 0x1_0000
      modifies `buf, `nBytesWritten, `curWritePos, `nWriteBits
      ensures CanWrite() && Data() == old(Data())[..Align(old(WriteAt())) / 8] + U16Bytes(v)
      ensures WriteAt() == Align(old(WriteAt())) + 16 && ReadAt() == old(ReadAt())
    {
      PutBytes(U16Bytes(v));
    }

    method PutU32(v: nat)
      requires CanWrite() && v < 0x1_0000_0000
      modifies `buf, `nBytesWritten, `curWritePos, `nWriteBits
      ensures CanWrite() && Data() == old(Data())[..Align(old(WriteAt())) / 8] + U32Bytes(v)
      ensures WriteAt() == Align(old(WriteAt())) + 32 && ReadAt() == old(ReadAt())
    {
      PutBytes(U32Bytes(v));
    }

    /** putU32VL. */
    method PutU32VL(v: nat)
      requires CanWrite() && v < 0x1_0000_0000
      modifies `buf, `nBytesWritten, `curWritePos, `nWriteBits
      ensures CanWrite() && Data() == PutBits(old(Data()), old(WriteAt()), VLBits(v))
      ensures WriteAt() == old(WriteAt()) + |VLBits(v)| && ReadAt() == old(ReadAt())
    {
      hide VLBits, ValBits, PutBits, VLDone, Align, Valid, WriteAt, ReadAt, Data;
      ghost var was, i := Data(), WriteAt();
      ghost var done: seq<bool> := [];
      var data := v;
      var haveMore := true;
      NoneYet(was, i, v);
      while haveMore
        invariant CanWrite() && Data() == PutBits(was, i, done) && WriteAt() == i + |done| && ReadAt() == old(ReadAt())
        invariant VLDone(v, done, haveMore, data)
        decreases haveMore, data
      {
        var byt := data % 128;
        VLNext(v, done, data);
        data := data / 128;
        haveMore := 0 != data;
        if haveMore {
          byt := byt + 128;
        }
        PutBitsOf(8, byt);
        PutBitsConcat(was, i, done, ValBits(8, byt));
        done := done + ValBits(8, byt);
      }
      VLAll(v, done, data);
    }

    // ----- reading --------------------------------------------------------------------------

    /** getBytes. */
    method GetBytes(count: nat) returns (bytes: seq<Byte>)
      requires Valid() && Align(ReadAt()) / 8 + count <= |Data()|
      modifies `curReadPos, `nReadBits
      ensures Valid() && Data() == old(Data()) && WriteAt() == old(WriteAt())
      ensures ReadAt() == Align(old(ReadAt())) + 8 * count
      ensures bytes == Data()[Align(old(ReadAt())) / 8..Align(old(ReadAt())) / 8 + count]
    {
      if nReadBits != 0 {
        nReadBits := 0;
      }
      bytes := buf[curReadPos..curReadPos + count];
      SubSub(buf, 0, nBytesWritten, curReadPos, curReadPos + count);
      assert buf[0..nBytesWritten] == buf[..nBytesWritten];
      curReadPos := curReadPos + count;
    }

    /** getOneBit. */
    method GetOneBit() returns (result: bool)
      requires Valid() && ReadAt() < 8 * |Data()|
      modifies `curReadPos, `nReadBits
      ensures Valid() && Data() == old(Data()) && WriteAt() == old(WriteAt())
      ensures ReadAt() == old(ReadAt()) + 1 && result == Bit(Data(), old(ReadAt()))
    {
      hide BitOf;
      if nReadBits == 0 {
        curReadPos := curReadPos + 1;
      }
      var rack := buf[curReadPos - 1];
      result := BitOf(rack, nReadBits);
      nReadBits := nReadBits + 1;
      if nReadBits == 8 {
        nReadBits := 0;
      }
    }

    /** getBits. */
    method GetBits(nBits: nat) returns (result: nat)
      requires Valid() && ReadAt() + nBits <= 8 * |Data()|
      modifies `curReadPos, `nReadBits
      ensures Valid() && Data() == old(Data()) && WriteAt() == old(WriteAt())
      ensures ReadAt() == old(ReadAt()) + nBits && result == Value(BitsFrom(Data(), old(ReadAt()), nBits))
    {
      hide Value, Pow2, Bit;
      ghost var i := ReadAt();
      result := 0;
      var mask, left := 1, nBits;
      ghost var k := 0;
      NothingRead(BitsFrom(Data(), i, 0));
      while left > 0
        invariant Valid() && Data() == old(Data()) && WriteAt() == old(WriteAt())
        invariant k + left == nBits && ReadAt() == i + k && mask == Pow2(k)
        invariant result == Value(BitsFrom(Data(), i, k))
      {
        var bit := GetOneBit();
        assert BitsFrom(Data(), i, k + 1) == BitsFrom(Data(), i, k) + [bit];
        ValueMore(BitsFrom(Data(), i, k), bit);
        if bit {
          result := result + mask;
        }
        PowMore(k);
        mask := 2 * mask;
        left := left - 1;
        k := k + 1;
      }
    }

    /** getU32VL, on a number that putU32VL wrote. */
    method GetU32VL(ghost v: nat) returns (result: nat)
      requires Valid() && Holds(Data(), ReadAt(), VLBits(v))
      modifies `curReadPos, `nReadBits
      ensures Valid() && Data() == old(Data()) && WriteAt() == old(WriteAt())
      ensures ReadAt() == old(ReadAt()) + |VLBits(v)| && result == v
    {
      hide Bit, Value, VLBits, ValBits, BitsFrom, Holds, Align, Pow2, VLLeft;
      ghost var i := ReadAt();
      result := 0;
      var scale := 1;
      ghost var rest := v;
      var more := true;
      VLStart(Data(), i, v);
      while more
        invariant Valid() && Data() == old(Data()) && WriteAt() == old(WriteAt())
        invariant more ==> VLLeft(Data(), i, v, ReadAt(), rest, result, scale)
        invariant !more ==> ReadAt() == i + |VLBits(v)| && result == v
        decreases more, rest
      {
        VLRead(Data(), i, v, ReadAt(), rest, result, scale);
        var byt := GetBits(8);
        result := result + byt % 128 * scale;
        more := byt / 128 != 0;
        scale := scale * 128;
        if more { rest := rest / 128; }
      }
    }

    method GetU8() returns (v: nat)
      requires Valid() && Align(ReadAt()) / 8 + 1 <= |Data()|
      modifies `curReadPos, `nReadBits
      ensures Valid() && Data() == old(Data()) && WriteAt() == old(WriteAt())
      ensures ReadAt() == Align(old(ReadAt())) + 8 && v == ByteValue(Data()[Align(old(ReadAt())) / 8])
    {
      var bytes := GetBytes(1);
      v := ByteValue(bytes[0]);
    }

    method GetU16() returns (v: nat)
      requires Valid() && Align(ReadAt()) / 8 + 2 <= |Data()|
      modifies `curReadPos, `nReadBits
      ensures Valid() && Data() == old(Data()) && WriteAt() == old(WriteAt())
      ensures ReadAt() == Align(old(ReadAt())) + 16
      ensures forall u: nat :: u < 0x1_0000 && Data()[Align(old(ReadAt())) / 8..Align(old(ReadAt())) / 8 + 2] == U16Bytes(u) ==> v == u
    {
      hide ByteValue, U16Bytes;
      var bytes := GetBytes(2);
      v := 0x100 * ByteValue(bytes[0]) + ByteValue(bytes[1]);
      forall u: nat | u < 0x1_0000 && bytes == U16Bytes(u)
        ensures v == u
      {
        U16Value(u);
      }
    }

    method GetU32() returns (v: nat)
      requires Valid() && Align(ReadAt()) / 8 + 4 <= |Data()|
      modifies `curReadPos, `nReadBits
      ensures Valid() && Data() == old(Data()) && WriteAt() == old(WriteAt())
      ensures ReadAt() == Align(old(ReadAt())) + 32
      ensures forall u: nat :: u < 0x1_0000_0000 && Data()[Align(old(ReadAt())) / 8..Align(old(ReadAt())) / 8 + 4] == U32Bytes(u) ==> v == u
    {
      hide ByteValue, U32Bytes;
      var bytes := GetBytes(4);
      v := 0x1_0000 * (0x100 * ByteValue(bytes[0]) + ByteValue(bytes[1])) + 0x100 * ByteValue(bytes[2]) + ByteValue(bytes[3]);
      forall u: nat | u < 0x1_0000_0000 && bytes == U32Bytes(u)
        ensures v == u
      {
        U32Value(u);
      }
    }

    /** getSize: what is left to read. */
    method GetSize() returns (size: nat)
      requires Valid() && curReadPos <= nBytesWritten
      ensures size == |Data()| - Align(ReadAt()) / 8
    {
      size := nBytesWritten - curReadPos;
    }

    method MoveChunk(src: MemStream, len: nat)
      requires CanWrite() && src.Valid() && src != this && Align(src.ReadAt()) / 8 + len <= |src.Data()|
      modifies this, src`curReadPos, src`nReadBits
      ensures CanWrite() && src.Valid() && src.Data() == old(src.Data()) && src.WriteAt() == old(src.WriteAt())
      ensures Data() == old(Data())[..Align(old(WriteAt())) / 8]
                        + src.Data()[Align(old(src.ReadAt())) / 8..Align(old(src.ReadAt())) / 8 + len]
      ensures WriteAt() == Align(old(WriteAt())) + 8 * len && ReadAt() == old(ReadAt())
      ensures src.ReadAt() == Align(old(src.ReadAt())) + 8 * len
    {
      hide Align;
      var bytes := src.GetBytes(len);
      PutBytes(bytes);
    }

    /** The same, with what has been copied before. */
    method CopyChunk(src: MemStream, len: nat, ghost was: seq<Byte>, ghost start: seq<Byte>, ghost all: seq<Byte>,
                     ghost from: nat, ghost moved: nat)
      requires CanWrite() && src.Valid() && src != this && len > 0 && moved + len <= |all|
      requires from + |all| <= |src.Data()| && all == src.Data()[from..from + |all|] && Copied(was, Data(), start, all, moved)
      requires Align(WriteAt()) == 8 * (|start| + moved) && Align(src.ReadAt()) == 8 * (from + moved)
      modifies this, src`curReadPos, src`nReadBits
      ensures CanWrite() && src.Valid() && src.Data() == old(src.Data()) && src.WriteAt() == old(src.WriteAt()) && ReadAt() == old(ReadAt())
      ensures Copied(was, Data(), start, all, moved + len)
      ensures Align(WriteAt()) == WriteAt() == 8 * (|start| + moved + len)
      ensures Align(src.ReadAt()) == src.ReadAt() == 8 * (from + moved + len)
    {
      hide Align, Data, WriteAt, ReadAt, Valid, Copied;
      AlignWhole(from + moved + len);
      AlignWhole(|start| + moved + len);
      ghost var before, source := Data(), src.Data();
      CopiedSize(was, before, start, all, moved);
      MoveChunk(src, len);
      ChunkMoved(was, before, source, Data(), start, all, from, moved, len);
    }

    /** getFromStream. */
    method GetFromStream(src: MemStream, nBytes: nat)
      requires CanWrite() && src.Valid() && src != this && Align(src.ReadAt()) / 8 + nBytes <= |src.Data()|
      modifies this, src`curReadPos, src`nReadBits
      ensures CanWrite() && src.Valid() && src.Data() == old(src.Data()) && src.WriteAt() == old(src.WriteAt())
      ensures Data() == old(Data())[..Align(old(WriteAt())) / 8]
                      + src.Data()[Align(old(src.ReadAt())) / 8..Align(old(src.ReadAt())) / 8 + nBytes] || nBytes == 0
      ensures nBytes == 0 ==> Data() == old(Data()) && WriteAt() == old(WriteAt())
      ensures nBytes > 0 ==> WriteAt() == Align(old(WriteAt())) + 8 * nBytes
      ensures ReadAt() == old(ReadAt())
      ensures nBytes > 0 ==> src.ReadAt() == Align(old(src.ReadAt())) + 8 * nBytes
    {
      hide Align, Data, WriteAt, ReadAt, Valid, Copied;
      ghost var from, to, was := Align(src.ReadAt()) / 8, Align(WriteAt()) / 8, Data();
      ghost var start, all := Data()[..to], src.Data()[from..from + nBytes];
      var left := nBytes;
      ghost var moved: nat := 0;
      NoneCopied(was, start, all);
      while left > 0
        invariant CanWrite() && src.Valid() && src.Data() == old(src.Data()) && src.WriteAt() == old(src.WriteAt())
        invariant ReadAt() == old(ReadAt()) && moved + left == nBytes
        invariant Align(WriteAt()) == 8 * (to + moved) && Align(src.ReadAt()) == 8 * (from + moved)
        invariant Copied(was, Data(), start, all, moved)
        invariant moved == 0 ==> WriteAt() == old(WriteAt()) && src.ReadAt() == old(src.ReadAt())
        invariant moved > 0 ==> WriteAt() == 8 * (to + moved) && src.ReadAt() == 8 * (from + moved)
      {
        var len := if left < 256 then left else 256;
        CopyChunk(src, len, was, start, all, from, moved);
        left := left - len;
        moved := moved + len;
      }
      AllCopied(was, Data(), start, all);
    }

    /** getHash. */
    method GetHash(pos: StreamPos) returns (hash: bv32)
      requires Valid() && GoodPos(pos) && Align(IndexOf(pos)) <= 8 * |Data()|
      ensures hash == HashBytes(HashedBytes(Data(), IndexOf(pos)))
    {
      hide HashStep, FinishHash, LowBits;
      var len, bits := pos / 8, pos % 8;
      if bits != 0 {
        len := len - 1;
      }
      hash := Augment(0, buf[..len]);
      assert buf[..len] == Data()[..IndexOf(pos) / 8];
      if bits != 0 {
        var byt := LowBits(buf[len], bits);
        AugmentConcat(0, buf[..len], [byt]);
        hash := Augment(hash, [byt]);
      } else {
        assert buf[..len] + [] == buf[..len];
      }
      hash := FinishHash(hash);
    }
  }

  lemma PutBitsMore(data: seq<Byte>, i: nat, bs: seq<bool>, k: nat)
    requires Align(i) <= 8 * |data| && k < |bs|
    ensures PutBits(data, i, bs[..k + 1]) == PutBit(PutBits(data, i, bs[..k]), i + k, bs[k])
  {
    hide PutBits, PutBit, Align;
    PutBitsLast(data, i, bs[..k + 1]);
    assert bs[..k + 1][..k] == bs[..k];
  }

  lemma ValBitsNext(n: nat, v: nat)
    requires n > 0
    ensures ValBits(n, v)[0] == (v % 2 == 1) && ValBits(n, v)[1..] == ValBits(n - 1, v / 2)
  {}

  /** The groups put down so far and those of what is left make up the number. */
  ghost predicate VLDone(v: nat, done: seq<bool>, more: bool, left: nat) {
    VLBits(v) == done + (if more then VLBits(left) else [])
  }

  lemma NoneYet(data: seq<Byte>, i: nat, v: nat)
    requires Align(i) <= 8 * |data|
    ensures PutBits(data, i, []) == data && VLDone(v, [], true, v)
  {}

  lemma VLNext(v: nat, done: seq<bool>, left: nat)
    requires VLDone(v, done, true, left)
    ensures var more := left / 128 != 0;
            VLDone(v, done + ValBits(8, if more then left % 128 + 128 else left % 128), more, left / 128)
  {
    hide ValBits;
    if left / 128 != 0 {
      assert done + (ValBits(8, left % 128 + 128) + VLBits(left / 128)) == (done + ValBits(8, left % 128 + 128)) + VLBits(left / 128);
    } else {
      assert done + ValBits(8, left % 128) == (done + ValBits(8, left % 128)) + [];
    }
  }

  lemma VLAll(v: nat, done: seq<bool>, left: nat)
    requires VLDone(v, done, false, left)
    ensures VLBits(v) == done
  {}

  lemma NothingRead(bs: seq<bool>)
    requires bs == []
    ensures Value(bs) == 0 && Pow2(0) == 1
  {}

  lemma PowMore(k: nat)
    ensures Pow2(k + 1) == 2 * Pow2(k)
  {}

  lemma SubSub(s: seq<Byte>, lo: nat, hi: nat, a: nat, b: nat)
    requires lo <= hi <= |s| && a <= b <= hi - lo
    ensures s[lo..hi][a..b] == s[lo + a..lo + b]
  {
    var t := s[lo..hi];
    forall k | 0 <= k < b - a
      ensures t[a..b][k] == s[lo + a..lo + b][k]
    {
      assert t[a + k] == s[lo + (a + k)];
    }
  }

  lemma MovedMore(data: seq<Byte>, start: seq<Byte>, all: seq<Byte>, moved: nat, len: nat)
    requires moved + len <= |all| && |start| + moved <= |data|
    requires if moved == 0 then data[..|start|] == start else data == start + all[..moved]
    ensures data[..|start| + moved] + all[moved..moved + len] == start + all[..moved + len]
  {
    assert all[..moved] + all[moved..moved + len] == all[..moved + len];
    assert data[..|start| + moved] == start + all[..moved];
  }

  /** The first `moved` of the bytes to be copied stand behind `start`. */
  ghost predicate Copied(was: seq<Byte>, now: seq<Byte>, start: seq<Byte>, all: seq<Byte>, moved: nat) {
    moved <= |all| && start <= was && now == if moved == 0 then was else start + all[..moved]
  }

  lemma NoneCopied(was: seq<Byte>, start: seq<Byte>, all: seq<Byte>)
    requires start <= was
    ensures Copied(was, was, start, all, 0)
  {}

  lemma CopiedSize(was: seq<Byte>, now: seq<Byte>, start: seq<Byte>, all: seq<Byte>, moved: nat)
    requires Copied(was, now, start, all, moved)
    ensures |start| + moved <= |now|
  {}

  lemma AllCopied(was: seq<Byte>, now: seq<Byte>, start: seq<Byte>, all: seq<Byte>)
    requires Copied(was, now, start, all, |all|)
    ensures now == if all == [] then was else start + all
  {
    assert all[..|all|] == all;
  }

  lemma ChunkMoved(was: seq<Byte>, data: seq<Byte>, source: seq<Byte>, now: seq<Byte>, start: seq<Byte>, all: seq<Byte>,
                   from: nat, moved: nat, len: nat)
    requires moved + len <= |all| && len > 0 && |start| + moved <= |data| && from + |all| <= |source|
    requires all == source[from..from + |all|] && Copied(was, data, start, all, moved)
    requires now == data[..|start| + moved] + source[from + moved..from + moved + len]
    ensures Copied(was, now, start, all, moved + len)
  {
    SubSub(source, from, from + |all|, moved, moved + len);
    MovedMore(data, start, all, moved, len);
  }

  /** The buffer, grown if need be, with bytes put at `at` and cut off behind them. */
  lemma Spliced(was: seq<Byte>, grown: seq<Byte>, n: nat, at: nat, bytes: seq<Byte>)
    requires at <= n <= |was| && was <= grown && at + |bytes| <= |grown|
    ensures (grown[..at] + bytes + grown[at + |bytes|..])[..at + |bytes|] == was[..n][..at] + bytes
  {
    assert grown[..at] == was[..at] == was[..n][..at];
  }

  /** The data with the byte of bit `i` begun. */
  function ByteReady(data: seq<Byte>, i: nat): (r: seq<Byte>)
    requires Align(i) <= 8 * |data|
    ensures i / 8 < |r|
  {
    if i % 8 != 0 then data else if i / 8 == |data| then data + [0] else data[i / 8 := 0]
  }

  lemma PutInByte(data: seq<Byte>, i: nat, ready: seq<Byte>, v: bool)
    requires Align(i) <= 8 * |data| && ready == ByteReady(data, i)
    ensures PutBit(data, i, v) == ready[i / 8 := SetBit(ready[i / 8], i % 8, v)]
  {
    hide SetBit;
  }

  lemma AlignWhole(k: nat)
    ensures Align(8 * k) == 8 * k && Align(8 * k) / 8 == k
  {}

  /** Of the number `v` stored at `i`, `rest` is still to be read, from `r` on. */
  ghost predicate VLLeft(data: seq<Byte>, i: nat, v: nat, r: nat, rest: nat, result: nat, scale: nat) {
    Holds(data, r, VLBits(rest)) && r + |VLBits(rest)| == i + |VLBits(v)| && v == result + scale * rest
  }

  lemma VLStart(data: seq<Byte>, i: nat, v: nat)
    requires Holds(data, i, VLBits(v))
    ensures VLLeft(data, i, v, i, v, 0, 1)
  {}

  lemma VLRead(data: seq<Byte>, i: nat, v: nat, r: nat, rest: nat, result: nat, scale: nat)
    requires VLLeft(data, i, v, r, rest, result, scale)
    ensures r + 8 <= 8 * |data|
    ensures var byt := Value(BitsFrom(data, r, 8));
            if byt / 128 != 0 then rest / 128 < rest && VLLeft(data, i, v, r + 8, rest / 128, result + byt % 128 * scale, scale * 128)
            else r + 8 == i + |VLBits(v)| && result + byt % 128 * scale == v
  {
    hide Bit, ValBits, VLBits, Value, BitsFrom, Holds, Pow2;
    var byte := if rest < 128 then rest else rest % 128 + 128;
    VLStep(data, r, rest);
    HeldValue(data, r, 8, byte);
    Scaled(result, scale, rest);
  }

  lemma VLStep(data: seq<Byte>, r: nat, v: nat)
    requires Holds(data, r, VLBits(v))
    ensures var byte := if v < 128 then v else v % 128 + 128;
            && Holds(data, r, ValBits(8, byte)) && byte < Pow2(8)
            && (v < 128 ==> |VLBits(v)| == 8)
            && (v >= 128 ==> Holds(data, r + 8, VLBits(v / 128)) && |VLBits(v)| == 8 + |VLBits(v / 128)|)
  {
    hide Bit, ValBits;
    assert Pow2(8) == 256;
    if v >= 128 {
      HoldsSplit(data, r, ValBits(8, v % 128 + 128), VLBits(v / 128));
    }
  }

  lemma Scaled(result: nat, scale: nat, v: nat)
    ensures result + scale * v == result + v % 128 * scale + scale * 128 * (v / 128)
  {
    var q, r := v / 128, v % 128;
    assert v == 128 * q + r;
    assert scale * (128 * q + r) == scale * 128 * q + r * scale;
  }

  // ----- any mixture of writes, read back ---------------------------------------------------

  /** One write: bits, whole bytes (also the fixed-size numbers and strings), or a number of
      variable length. */
  datatype Item = Bits(nBits: nat, value: nat) | Bytes(bytes: seq<Byte>) | VL(number: nat)

  /** What a reader must know to read it back. */
  datatype Shape = BitsShape(nBits: nat) | BytesShape(count: nat) | VLShape

  function ShapeOf(item: Item): Shape {
    match item
    case Bits(n, _) => BitsShape(n)
    case Bytes(bs) => BytesShape(|bs|)
    case VL(_) => VLShape
  }

  predicate ItemOk(item: Item) {
    match item
    case Bits(n, v) => n > 0 && v < Pow2(n)
    case Bytes(_) => true
    case VL(v) => v < 0x1_0000_0000
  }

  /** Where the item begins if the position is `i`: bytes begin at a boundary. */
  function BeginAt(i: nat, item: Item): (j: nat)
    ensures i <= j <= Align(i)
  {
    if item.Bytes? then Align(i) else i
  }

  function Encoded(item: Item): seq<bool> {
    match item
    case Bits(n, v) => ValBits(n, v)
    case Bytes(bs) => AllBits(bs)
    case VL(v) => VLBits(v)
  }

  function EndAt(i: nat, item: Item): nat {
    BeginAt(i, item) + |Encoded(item)|
  }

  function PutItem(data: seq<Byte>, i: nat, item: Item): (r: seq<Byte>)
    requires Align(i) <= 8 * |data|
    ensures Align(EndAt(i, item)) <= 8 * |r|
  {
    ItemRoom(data, i, item);
    if item.Bytes? then data[..Align(i) / 8] + item.bytes else PutBits(data, i, Encoded(item))
  }

  lemma ItemRoom(data: seq<Byte>, i: nat, item: Item)
    requires Align(i) <= 8 * |data|
    ensures item.Bytes? ==> Align(EndAt(i, item)) <= 8 * |data[..Align(i) / 8] + item.bytes|
    ensures !item.Bytes? ==> EndAt(i, item) == i + |Encoded(item)|
  {
    hide Align, PutBits, ValBits, VLBits;
    if item.Bytes? {
      AlignWhole(Align(i) / 8 + |item.bytes|);
    }
  }

  function PutItems(data: seq<Byte>, i: nat, items: seq<Item>): seq<Byte>
    requires Align(i) <= 8 * |data|
    decreases |items|
  {
    if items == [] then data else PutItems(PutItem(data, i, items[0]), EndAt(i, items[0]), items[1..])
  }

  function EndOfAll(i: nat, items: seq<Item>): nat
    decreases |items|
  {
    if items == [] then i else EndOfAll(EndAt(i, items[0]), items[1..])
  }

  /** The data hold all the items, from position `i` on. */
  ghost predicate Stored(data: seq<Byte>, i: nat, items: seq<Item>)
    decreases |items|
  {
    items == [] || (Holds(data, BeginAt(i, items[0]), Encoded(items[0])) && Stored(data, EndAt(i, items[0]), items[1..]))
  }

  /** What was held before the position is still held. */
  lemma ItemKeeps(data: seq<Byte>, i: nat, item: Item, j: nat, bs: seq<bool>)
    requires Align(i) <= 8 * |data| && Holds(data, j, bs) && j + |bs| <= i
    ensures Holds(PutItem(data, i, item), j, bs)
  {
    hide Bit, PutBits, Encoded;
    forall k | 0 <= k < |bs|
      ensures Bit(PutItem(data, i, item), j + k) == bs[k]
    {
      if item.Bytes? {
        BitKept(data, Align(i) / 8, item.bytes, j + k);
      } else {
        PutBitsAt(data, i, Encoded(item), j + k);
      }
    }
  }

  lemma BitKept(data: seq<Byte>, m: nat, bytes: seq<Byte>, n: nat)
    requires m <= |data| && n < 8 * m
    ensures Bit(data[..m] + bytes, n) == Bit(data, n)
  {}

  lemma ItemHeld(data: seq<Byte>, i: nat, item: Item)
    requires Align(i) <= 8 * |data|
    ensures Holds(PutItem(data, i, item), BeginAt(i, item), Encoded(item))
  {
    hide Bit, PutBits, VLBits, ValBits;
    var r, j, bs := PutItem(data, i, item), BeginAt(i, item), Encoded(item);
    forall k | 0 <= k < |bs|
      ensures Bit(r, j + k) == bs[k]
    {
      if item.Bytes? {
        ByteShift(data[..Align(i) / 8], item.bytes, k);
      } else {
        PutBitsAt(data, i, bs, i + k);
      }
    }
  }

  lemma {:induction false} ItemsKeep(data: seq<Byte>, i: nat, items: seq<Item>, j: nat, bs: seq<bool>)
    requires Align(i) <= 8 * |data| && Holds(data, j, bs) && j + |bs| <= i
    ensures Holds(PutItems(data, i, items), j, bs)
    decreases |items|
  {
    hide Holds, PutItem;
    if items != [] {
      ItemKeeps(data, i, items[0], j, bs);
      ItemsKeep(PutItem(data, i, items[0]), EndAt(i, items[0]), items[1..], j, bs);
    }
  }

  /** Any items written one after another, starting anywhere, also inside a byte or over older
      data, are all there afterwards, each where the next read will look for it. */
  lemma {:induction false} ItemsStored(data: seq<Byte>, i: nat, items: seq<Item>)
    requires Align(i) <= 8 * |data|
    ensures Stored(PutItems(data, i, items), i, items)
    decreases |items|
  {
    hide Holds, PutItem, Encoded;
    if items != [] {
      var first := items[0];
      var data1 := PutItem(data, i, first);
      ItemHeld(data, i, first);
      ItemsKeep(data1, EndAt(i, first), items[1..], BeginAt(i, first), Encoded(first));
      ItemsStored(data1, EndAt(i, first), items[1..]);
    }
  }

  method WriteItem(s: MemStream, item: Item)
    requires s.CanWrite() && ItemOk(item)
    modifies s
    ensures s.CanWrite() && s.Data() == PutItem(old(s.Data()), old(s.WriteAt()), item)
    ensures s.WriteAt() == EndAt(old(s.WriteAt()), item) && s.ReadAt() == old(s.ReadAt())
  {
    hide PutBits;
    match item {
      case Bits(n, v) => s.PutBitsOf(n, v);
      case Bytes(bs) => s.PutBytes(bs);
      case VL(v) => s.PutU32VL(v);
    }
  }

  method WriteItems(s: MemStream, items: seq<Item>)
    requires s.CanWrite() && forall k :: 0 <= k < |items| ==> ItemOk(items[k])
    modifies s
    ensures s.CanWrite() && s.Data() == PutItems(old(s.Data()), old(s.WriteAt()), items)
    ensures s.WriteAt() == EndOfAll(old(s.WriteAt()), items) && s.ReadAt() == old(s.ReadAt())
  {
    hide PutItem, EndAt;
    var k := 0;
    ghost var data, i := s.Data(), s.WriteAt();
    assert items[0..] == items;
    while k < |items|
      invariant k <= |items| && s.CanWrite() && s.ReadAt() == old(s.ReadAt())
      invariant PutItems(s.Data(), s.WriteAt(), items[k..]) == PutItems(data, i, items)
      invariant EndOfAll(s.WriteAt(), items[k..]) == EndOfAll(i, items)
    {
      assert items[k..][1..] == items[k + 1..];
      WriteItem(s, items[k]);
      k := k + 1;
    }
    assert items[k..] == [];
  }

  method ReadItem(s: MemStream, shape: Shape, ghost item: Item) returns (got: Item)
    requires s.Valid() && ItemOk(item) && shape == ShapeOf(item)
    requires Holds(s.Data(), BeginAt(s.ReadAt(), item), Encoded(item))
    modifies s
    ensures s.Valid() && s.Data() == old(s.Data()) && s.WriteAt() == old(s.WriteAt())
    ensures got == item && s.ReadAt() == EndAt(old(s.ReadAt()), item)
  {
    hide Bit, Value, VLBits;
    match shape {
      case BitsShape(n) =>
        HeldValue(s.Data(), s.ReadAt(), n, item.value);
        var v := s.GetBits(n);
        got := Bits(n, v);
      case BytesShape(count) =>
        ghost var k := Align(s.ReadAt()) / 8;
        HeldBytes(s.Data(), k, item.bytes);
        var bs := s.GetBytes(count);
        got := Bytes(bs);
      case VLShape =>
        var v := s.GetU32VL(item.number);
        got := VL(v);
    }
  }

  /** Reading with the shapes of what was written gives it back, item by item, and ends where the
      writing ended. */
  method ReadItems(s: MemStream, shapes: seq<Shape>, ghost items: seq<Item>) returns (got: seq<Item>)
    requires s.Valid() && |shapes| == |items|
    requires forall k :: 0 <= k < |items| ==> ItemOk(items[k]) && shapes[k] == ShapeOf(items[k])
    requires Stored(s.Data(), s.ReadAt(), items)
    modifies s
    ensures s.Valid() && s.Data() == old(s.Data()) && s.WriteAt() == old(s.WriteAt())
    ensures got == items && s.ReadAt() == EndOfAll(old(s.ReadAt()), items)
  {
    hide Holds, EndAt, Encoded;
    got := [];
    ghost var i := s.ReadAt();
    var k := 0;
    assert items[0..] == items && items[..0] == [];
    while k < |shapes|
      invariant k <= |shapes| && s.Valid() && s.Data() == old(s.Data()) && s.WriteAt() == old(s.WriteAt())
      invariant got == items[..k] && Stored(s.Data(), s.ReadAt(), items[k..])
      invariant EndOfAll(s.ReadAt(), items[k..]) == EndOfAll(i, items)
    {
      assert items[k..][1..] == items[k + 1..];
      var item := ReadItem(s, shapes[k], items[k]);
      got := got + [item];
      k := k + 1;
    }
    assert items[..k] == items && items[k..] == [];
  }
}
