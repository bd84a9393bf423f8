/** The hash of a position (augmentHash and finishHash of strutils.c): Jenkins's one-at-a-time hash.
    No step of it loses anything, so that positions that differ in one byte never look the same. */
module JenkinsHash {
  import opened BitStream

  // The three statements of a step, and the three of the finish.
  function Up10(h: bv32): bv32 { h + (h << 10) }
  function Down6(h: bv32): bv32 { h ^ (h >> 6) }
  function Up3(h: bv32): bv32 { h + (h << 3) }
  function Down11(h: bv32): bv32 { h ^ (h >> 11) }
  function Up15(h: bv32): bv32 { h + (h << 15) }
  function Plus(h: bv32, byte: Byte): bv32 { h + byte as bv32 }

  function HashStep(hash: bv32, byte: Byte): bv32 {
    Down6(Up10(Plus(hash, byte)))
  }

  function AugmentHash(hash: bv32, bytes: seq<Byte>): bv32
    decreases |bytes|
  {
    if bytes == [] then hash else AugmentHash(HashStep(hash, bytes[0]), bytes[1..])
  }

  function FinishHash(hash: bv32): bv32 {
    Up15(Down11(Up3(hash)))
  }

  /** The hash of a string of bytes. */
  function HashBytes(bytes: seq<Byte>): bv32 { FinishHash(AugmentHash(0, bytes)) }

  lemma {:induction false} AugmentConcat(hash: bv32, a: seq<Byte>, b: seq<Byte>)
    ensures AugmentHash(hash, a + b) == AugmentHash(AugmentHash(hash, a), b)
    decreases |a|
  {
    hide HashStep;
    if a == [] {
      assert a + b == b;
    } else {
      AugmentConcat(HashStep(hash, a[0]), a[1..], b);
      assert (a + b)[0] == a[0] && (a + b)[1..] == a[1..] + b;
    }
  }

  /** augmentHash. */
  method Augment(hash: bv32, bytes: seq<Byte>) returns (r: bv32)
    ensures r == AugmentHash(hash, bytes)
  {
    hide HashStep;
    r := hash;
    for n := 0 to |bytes|
      invariant r == AugmentHash(hash, bytes[..n])
    {
      AugmentConcat(hash, bytes[..n], [bytes[n]]);
      assert bytes[..n + 1] == bytes[..n] + [bytes[n]];
      AugmentOne(r, bytes[n]);
      r := HashStep(r, bytes[n]);
    }
    assert bytes[..|bytes|] == bytes;
  }

  lemma AugmentOne(hash: bv32, byte: Byte)
    ensures AugmentHash(hash, [byte]) == HashStep(hash, byte)
  {
    hide HashStep;
    assert [byte][1..] == [];
  }

  // ----- nothing is lost --------------------------------------------------------------------

  // What undoes each statement: 1025, 9 and 32769 are odd and so have inverses.
  function Undo10(h: bv32): bv32 { h * 0xc00ffc01 }
  function Undo6(h: bv32): bv32 { h ^ (h >> 6) ^ (h >> 12) ^ (h >> 18) ^ (h >> 24) ^ (h >> 30) }
  function Undo3(h: bv32): bv32 { h * 0x38e38e39 }
  function Undo11(h: bv32): bv32 { h ^ (h >> 11) ^ (h >> 22) }
  function Undo15(h: bv32): bv32 { h * 0x3fff8001 }

  lemma Inverse10(h: bv32)
    ensures Undo10(h * 1025) == h
  {}

  lemma Up10Times(h: bv32)
    ensures Up10(h) == h * 1025
  {}

  lemma Undone10(h: bv32)
    ensures Undo10(Up10(h)) == h
  {
    hide Up10, Undo10;
    Up10Times(h);
    Inverse10(h);
  }

  lemma Inverse6(h: bv32)
    ensures Undo6(h ^ (h >> 6)) == h
  {}

  lemma Undone6(h: bv32)
    ensures Undo6(Down6(h)) == h
  {
    hide Undo6;
    Inverse6(h);
  }

  lemma Inverse3(h: bv32)
    ensures Undo3(h * 9) == h
  {}

  lemma Up3Times(h: bv32)
    ensures Up3(h) == h * 9
  {}

  lemma Undone3(h: bv32)
    ensures Undo3(Up3(h)) == h
  {
    hide Up3, Undo3;
    Up3Times(h);
    Inverse3(h);
  }

  lemma Inverse11(h: bv32)
    ensures Undo11(h ^ (h >> 11)) == h
  {}

  lemma Undone11(h: bv32)
    ensures Undo11(Down11(h)) == h
  {
    hide Undo11;
    Inverse11(h);
  }

  lemma Inverse15(h: bv32)
    ensures Undo15(h * 32769) == h
  {}

  lemma Up15Times(h: bv32)
    ensures Up15(h) == h * 32769
  {}

  lemma Undone15(h: bv32)
    ensures Undo15(Up15(h)) == h
  {
    hide Up15, Undo15;
    Up15Times(h);
    Inverse15(h);
  }

  lemma PlusTells(h: bv32, h': bv32, b: Byte, b': Byte)
    ensures Plus(h, b) == Plus(h', b) ==> h == h'
    ensures Plus(h, b) == Plus(h, b') ==> b == b'
  {}

  /** What undoes the step, but for the byte. */
  function UndoStep(hash: bv32): bv32 { Undo10(Undo6(hash)) }

  lemma StepUndone(hash: bv32, byte: Byte)
    ensures UndoStep(HashStep(hash, byte)) == Plus(hash, byte)
  {
    hide Up10, Down6, Undo10, Undo6, Plus;
    var h := Plus(hash, byte);
    Undone6(Up10(h));
    Undone10(h);
  }

  /** What undoes the finish. */
  function UndoFinish(hash: bv32): bv32 { Undo3(Undo11(Undo15(hash))) }

  lemma FinishUndone(hash: bv32)
    ensures UndoFinish(FinishHash(hash)) == hash
  {
    hide Up3, Down11, Up15, Undo3, Undo11, Undo15;
    Undone15(Down11(Up3(hash)));
    Undone11(Up3(hash));
    Undone3(hash);
  }

  /** Different hashes stay different whatever byte comes, and different bytes make them so. */
  lemma StepTells(h: bv32, h': bv32, b: Byte, b': Byte)
    ensures HashStep(h, b) == HashStep(h', b) ==> h == h'
    ensures HashStep(h, b) == HashStep(h, b') ==> b == b'
  {
    hide HashStep, UndoStep, Plus;
    StepUndone(h, b);
    StepUndone(h', b);
    StepUndone(h, b');
    PlusTells(h, h', b, b');
  }

  lemma {:induction false} AugmentTells(h: bv32, h': bv32, bytes: seq<Byte>)
    requires h != h'
    ensures AugmentHash(h, bytes) != AugmentHash(h', bytes)
    decreases |bytes|
  {
    hide HashStep;
    if bytes != [] {
      StepTells(h, h', bytes[0], bytes[0]);
      AugmentTells(HashStep(h, bytes[0]), HashStep(h', bytes[0]), bytes[1..]);
    }
  }

  /** Finished hashes are equal only if the hashes were. */
  lemma FinishTells(h: bv32, h': bv32)
    ensures FinishHash(h) == FinishHash(h') ==> h == h'
  {
    hide FinishHash, UndoFinish;
    FinishUndone(h);
    FinishUndone(h');
  }

  /** Two strings of bytes that differ in one byte have different hashes. */
  lemma OneByteTells(a: seq<Byte>, b: seq<Byte>, k: nat)
    requires k < |a| == |b| && a[k] != b[k] && a[..k] == b[..k] && a[k + 1..] == b[k + 1..]
    ensures HashBytes(a) != HashBytes(b)
  {
    hide HashStep, FinishHash, AugmentHash;
    var h := AugmentHash(0, a[..k]);
    HashThrough(a, k);
    HashThrough(b, k);
    StepTells(h, h, a[k], b[k]);
    AugmentTells(HashStep(h, a[k]), HashStep(h, b[k]), a[k + 1..]);
    FinishTells(AugmentHash(0, a), AugmentHash(0, b));
  }

  lemma HashThrough(a: seq<Byte>, k: nat)
    requires k < |a|
    ensures AugmentHash(0, a) == AugmentHash(HashStep(AugmentHash(0, a[..k]), a[k]), a[k + 1..])
  {
    hide HashStep, AugmentHash;
    assert a == (a[..k] + [a[k]]) + a[k + 1..];
    AugmentConcat(0, a[..k] + [a[k]], a[k + 1..]);
    AugmentConcat(0, a[..k], [a[k]]);
    AugmentOne(AugmentHash(0, a[..k]), a[k]);
  }

  // ----- known answers ----------------------------------------------------------------------

  /** The published value for "a"; and the two bytes of a stack on which player 0 has drawn tile 1. */
  lemma KnownHashes()
    ensures HashBytes([]) == 0
    ensures HashBytes([0x61]) == 0xca2e9442
    ensures HashBytes([0x10, 0x01]) == 0x40c66f84
  {
    var a: seq<Byte>, b: seq<Byte> := [0x10], [0x01];
    AugmentOne(0, 0x61);
    AugmentConcat(0, a, b);
    AugmentOne(0, 0x10);
    AugmentOne(HashStep(0, 0x10), 0x01);
    assert a + b == [0x10, 0x01];
  }
}
