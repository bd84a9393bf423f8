/** considerScoreWordHasBlanks: every way to choose which tiles of a move the blanks stand for. */
module Blanks {
  import opened Wrappers
  import opened Dawg

  /** The face in the low six bits; bit 6 marks a blank. */
  type CellTile = v: nat | v < 128

  const TILE_BLANK_BIT: nat := 64

  function Face(v: CellTile): Tile { v % 64 }

  predicate IsBlank(v: CellTile) { v >= TILE_BLANK_BIT }

  function Marked(v: CellTile): (r: CellTile)
    requires !IsBlank(v)
    ensures IsBlank(r) && Face(r) == Face(v)
  {
    v + TILE_BLANK_BIT
  }

  /** The markings reached from `tiles`, the blanks of `blanks` still to be placed, last first. */
  function Markings(tiles: seq<CellTile>, blanks: seq<Tile>): seq<seq<CellTile>>
    decreases |blanks|, |tiles| + 1
  {
    if blanks == [] then [tiles] else MarkingsFrom(tiles, blanks, 0)
  }

  /** The loop over the tiles from index `ii`. */
  function MarkingsFrom(tiles: seq<CellTile>, blanks: seq<Tile>, ii: nat): seq<seq<CellTile>>
    requires blanks != [] && ii <= |tiles|
    decreases |blanks|, |tiles| - ii
  {
    if ii == |tiles| then []
    else
      (if Face(tiles[ii]) == blanks[|blanks| - 1] && !IsBlank(tiles[ii])
       then Markings(tiles[ii := Marked(tiles[ii])], blanks[..|blanks| - 1]) else [])
      + MarkingsFrom(tiles, blanks, ii + 1)
  }

  lemma MarkingsStart(tiles: seq<CellTile>, blanks: seq<Tile>)
    ensures Markings(tiles, blanks) == if blanks == [] then [tiles] else MarkingsFrom(tiles, blanks, 0)
    ensures blanks != [] ==> MarkingsFrom(tiles, blanks, |tiles|) == []
  {}

  lemma MarkingsStep(tiles: seq<CellTile>, blanks: seq<Tile>, ii: nat, before: seq<seq<CellTile>>)
    requires blanks != [] && ii < |tiles|
    ensures var here := if Face(tiles[ii]) == blanks[|blanks| - 1] && !IsBlank(tiles[ii])
                        then Markings(tiles[ii := Marked(tiles[ii])], blanks[..|blanks| - 1]) else [];
            before + MarkingsFrom(tiles, blanks, ii) == (before + here) + MarkingsFrom(tiles, blanks, ii + 1)
            && before + [] == before
  {
    hide Markings;
  }

  /** The faces that are marked in `m` but not in `tiles`. */
  ghost function NewlyMarked(tiles: seq<CellTile>, m: seq<CellTile>): multiset<Tile>
    requires |tiles| == |m|
  {
    if tiles == [] then multiset{}
    else (if IsBlank(m[0]) && !IsBlank(tiles[0]) then multiset{Face(m[0])} else multiset{}) + NewlyMarked(tiles[1..], m[1..])
  }

  /** `m` is `tiles` with some more tiles marked. */
  ghost predicate Extends(tiles: seq<CellTile>, m: seq<CellTile>) {
    |tiles| == |m| && forall i :: 0 <= i < |m| ==> m[i] == tiles[i] || (!IsBlank(tiles[i]) && m[i] == Marked(tiles[i]))
  }

  lemma {:induction false} MarkOne(tiles: seq<CellTile>, m: seq<CellTile>, i: nat)
    requires Extends(tiles, m) && i < |m| && IsBlank(m[i]) && !IsBlank(tiles[i])
    ensures var t := tiles[i := Marked(tiles[i])];
            Extends(t, m) && NewlyMarked(tiles, m) == NewlyMarked(t, m) + multiset{Face(m[i])}
  {
    var t := tiles[i := Marked(tiles[i])];
    if i == 0 {
      assert t[1..] == tiles[1..];
    } else {
      MarkOne(tiles[1..], m[1..], i - 1);
      assert t[1..] == tiles[1..][i - 1 := Marked(tiles[i])];
    }
  }

  lemma {:induction false} NothingNew(tiles: seq<CellTile>, m: seq<CellTile>)
    requires Extends(tiles, m)
    ensures NewlyMarked(tiles, m) == multiset{} <==> m == tiles
    ensures NewlyMarked(tiles, tiles) == multiset{}
  {
    if tiles != [] {
      NothingNew(tiles[1..], m[1..]);
      if IsBlank(m[0]) && !IsBlank(tiles[0]) {
        assert Face(m[0]) in NewlyMarked(tiles, m);
      } else {
        assert m == [m[0]] + m[1..] && tiles == [tiles[0]] + tiles[1..];
      }
    }
  }

  lemma {:induction false} FindMarked(tiles: seq<CellTile>, m: seq<CellTile>, face: Tile) returns (i: nat)
    requires Extends(tiles, m) && face in NewlyMarked(tiles, m)
    ensures i < |m| && IsBlank(m[i]) && !IsBlank(tiles[i]) && Face(m[i]) == face
  {
    if IsBlank(m[0]) && !IsBlank(tiles[0]) && Face(m[0]) == face {
      i := 0;
    } else {
      i := FindMarked(tiles[1..], m[1..], face);
      i := i + 1;
    }
  }

  lemma {:induction false} FromIsUnion(tiles: seq<CellTile>, blanks: seq<Tile>, ii: nat, m: seq<CellTile>)
    requires blanks != [] && ii <= |tiles|
    ensures m in MarkingsFrom(tiles, blanks, ii) <==>
              exists j :: ii <= j < |tiles| && Face(tiles[j]) == blanks[|blanks| - 1] && !IsBlank(tiles[j])
                          && m in Markings(tiles[j := Marked(tiles[j])], blanks[..|blanks| - 1])
    decreases |tiles| - ii
  {
    hide Markings, NewlyMarked;
    if ii < |tiles| {
      FromIsUnion(tiles, blanks, ii + 1, m);
    }
  }

  lemma Unmark(tiles: seq<CellTile>, m: seq<CellTile>, j: nat)
    requires j < |tiles| && !IsBlank(tiles[j]) && Extends(tiles[j := Marked(tiles[j])], m)
    ensures Extends(tiles, m) && IsBlank(m[j]) && Face(m[j]) == Face(tiles[j])
  {
    var t := tiles[j := Marked(tiles[j])];
    forall i | 0 <= i < |m|
      ensures m[i] == tiles[i] || (!IsBlank(tiles[i]) && m[i] == Marked(tiles[i]))
    {
      assert m[i] == t[i] || (!IsBlank(t[i]) && m[i] == Marked(t[i]));
    }
  }

  lemma CancelOne(a: multiset<Tile>, b: multiset<Tile>, face: Tile)
    requires a + multiset{face} == b + multiset{face}
    ensures a == b
  {
    assert a == (a + multiset{face}) - multiset{face};
    assert b == (b + multiset{face}) - multiset{face};
  }

  /** The blanks are spread over the tiles in exactly the ways their faces permit. */
  lemma {:induction false} MarkingsExact(tiles: seq<CellTile>, blanks: seq<Tile>, m: seq<CellTile>)
    ensures m in Markings(tiles, blanks) <==> Extends(tiles, m) && NewlyMarked(tiles, m) == multiset(blanks)
    decreases |blanks|, 1
  {
    if blanks == [] {
      if Extends(tiles, m) {
        NothingNew(tiles, m);
      } else {
        NothingNew(tiles, tiles);
      }
    } else {
      hide Extends, NewlyMarked, MarkingsFrom;
      if m in Markings(tiles, blanks) {
        MarkingsSound(tiles, blanks, m);
      }
      if Extends(tiles, m) && NewlyMarked(tiles, m) == multiset(blanks) {
        MarkingsComplete(tiles, blanks, m);
      }
    }
  }

  lemma {:induction false} MarkingsSound(tiles: seq<CellTile>, blanks: seq<Tile>, m: seq<CellTile>)
    requires blanks != [] && m in Markings(tiles, blanks)
    ensures Extends(tiles, m) && NewlyMarked(tiles, m) == multiset(blanks)
    decreases |blanks|, 0
  {
    hide Extends, NewlyMarked;
    var face, rest := blanks[|blanks| - 1], blanks[..|blanks| - 1];
    assert blanks == rest + [face];
    FromIsUnion(tiles, blanks, 0, m);
    var j :| 0 <= j < |tiles| && Face(tiles[j]) == face && !IsBlank(tiles[j])
             && m in Markings(tiles[j := Marked(tiles[j])], rest);
    MarkingsExact(tiles[j := Marked(tiles[j])], rest, m);
    Unmark(tiles, m, j);
    ExtendsSize(tiles, m);
    MarkOne(tiles, m, j);
  }

  lemma ExtendsSize(tiles: seq<CellTile>, m: seq<CellTile>)
    requires Extends(tiles, m)
    ensures |tiles| == |m|
  {}

  lemma {:induction false} MarkingsComplete(tiles: seq<CellTile>, blanks: seq<Tile>, m: seq<CellTile>)
    requires blanks != [] && Extends(tiles, m) && NewlyMarked(tiles, m) == multiset(blanks)
    ensures m in Markings(tiles, blanks)
    decreases |blanks|, 0
  {
    ExtendsSize(tiles, m);
    hide Extends, NewlyMarked, MarkingsFrom;
    var face, rest := blanks[|blanks| - 1], blanks[..|blanks| - 1];
    assert blanks == rest + [face];
    var j := FindMarked(tiles, m, face);
    MarkedFace(tiles, m, j);
    MarkOne(tiles, m, j);
    CancelOne(NewlyMarked(tiles[j := Marked(tiles[j])], m), multiset(rest), face);
    MarkingsExact(tiles[j := Marked(tiles[j])], rest, m);
    FromIsUnion(tiles, blanks, 0, m);
  }

  lemma MarkedFace(tiles: seq<CellTile>, m: seq<CellTile>, j: nat)
    requires Extends(tiles, m) && j < |m|
    ensures Face(tiles[j]) == Face(m[j])
  {}

  /** If no two blanks stand for the same face, no marking comes up twice. */
  lemma {:induction false} MarkingsOnce(tiles: seq<CellTile>, blanks: seq<Tile>)
    requires NoDups(blanks)
    ensures NoDups(Markings(tiles, blanks))
    decreases |blanks|, |tiles| + 1
  {
    if blanks != [] {
      MarkingsFromOnce(tiles, blanks, 0);
    }
  }

  lemma {:induction false} MarkingsFromOnce(tiles: seq<CellTile>, blanks: seq<Tile>, ii: nat)
    requires blanks != [] && ii <= |tiles| && NoDups(blanks)
    ensures NoDups(MarkingsFrom(tiles, blanks, ii))
    decreases |blanks|, |tiles| - ii
  {
    hide Markings, Extends, NewlyMarked;
    if ii < |tiles| {
      MarkingsFromOnce(tiles, blanks, ii + 1);
      if Face(tiles[ii]) == blanks[|blanks| - 1] && !IsBlank(tiles[ii]) {
        var t, rest := tiles[ii := Marked(tiles[ii])], blanks[..|blanks| - 1];
        MarkingsOnce(t, rest);
        forall m | m in Markings(t, rest)
          ensures m !in MarkingsFrom(tiles, blanks, ii + 1)
        {
          StaysMarked(t, rest, ii, m);
          if m in MarkingsFrom(tiles, blanks, ii + 1) {
            LaterLeaves(tiles, blanks, ii, m);
          }
        }
        NoDupsConcat(Markings(t, rest), MarkingsFrom(tiles, blanks, ii + 1));
      }
    }
  }

  lemma StaysMarked(tiles: seq<CellTile>, blanks: seq<Tile>, i: nat, m: seq<CellTile>)
    requires i < |tiles| && IsBlank(tiles[i]) && m in Markings(tiles, blanks)
    ensures |m| == |tiles| && IsBlank(m[i])
  {
    MarkingsExact(tiles, blanks, m);
  }

  /** A blank that marks a later tile leaves this one alone. */
  lemma LaterLeaves(tiles: seq<CellTile>, blanks: seq<Tile>, ii: nat, m: seq<CellTile>)
    requires blanks != [] && NoDups(blanks) && ii < |tiles| && m in MarkingsFrom(tiles, blanks, ii + 1)
    requires Face(tiles[ii]) == blanks[|blanks| - 1] && !IsBlank(tiles[ii])
    ensures |m| == |tiles| && !IsBlank(m[ii])
  {
    hide Markings, NewlyMarked, MarkingsFrom;
    var rest := blanks[..|blanks| - 1];
    FromIsUnion(tiles, blanks, ii + 1, m);
    var j :| ii + 1 <= j < |tiles| && Face(tiles[j]) == blanks[|blanks| - 1] && !IsBlank(tiles[j])
             && m in Markings(tiles[j := Marked(tiles[j])], rest);
    var t := tiles[j := Marked(tiles[j])];
    MarkingsExact(t, rest, m);
    LastOnce(blanks);
    if IsBlank(m[ii]) {
      FaceSpent(t, rest, ii, m);
    }
  }

  lemma LastOnce(blanks: seq<Tile>)
    requires blanks != [] && NoDups(blanks)
    ensures blanks[|blanks| - 1] !in blanks[..|blanks| - 1]
  {}

  /** A tile that a marking marks takes a blank for its face. */
  lemma FaceSpent(tiles: seq<CellTile>, blanks: seq<Tile>, i: nat, m: seq<CellTile>)
    requires m in Markings(tiles, blanks) && i < |m| == |tiles| && !IsBlank(tiles[i]) && IsBlank(m[i])
    ensures Face(tiles[i]) in blanks
  {
    hide Markings, NewlyMarked;
    MarkingsExact(tiles, blanks, m);
    MarkOne(tiles, m, i);
    assert Face(m[i]) in NewlyMarked(tiles, m);
  }

  /** One tile of two is still to be marked. */
  lemma OneLeft(tiles: seq<CellTile>, f: Tile, i: nat)
    requires |tiles| == 2 && i < 2 && f < 64 && tiles[i] == f && tiles[1 - i] == f + TILE_BLANK_BIT
    ensures Markings(tiles, [f]) == [[f + TILE_BLANK_BIT, f + TILE_BLANK_BIT]]
  {
    var m := tiles[i := Marked(f)];
    assert m == [f + TILE_BLANK_BIT, f + TILE_BLANK_BIT];
    assert [f][..0] == [] && Markings(m, []) == [m];
    MarkingsStart(tiles, [f]);
    MarkingsStep(tiles, [f], 0, []);
    MarkingsStep(tiles, [f], 1, if i == 0 then [m] else []);
    hide MarkingsFrom;
    assert MarkingsFrom(tiles, [f], 2) == [];
  }

  /** Two blanks for one face are found in both orders. */
  lemma TwiceMarked(f: Tile)
    requires f < 64
    ensures var m := [f + TILE_BLANK_BIT, f + TILE_BLANK_BIT]; Markings([f, f], [f, f]) == [m, m]
  {
    var u, m: seq<CellTile> := [f, f], [f + TILE_BLANK_BIT, f + TILE_BLANK_BIT];
    var a, b: seq<CellTile> := [f + TILE_BLANK_BIT, f], [f, f + TILE_BLANK_BIT];
    assert u[0 := Marked(f)] == a && u[1 := Marked(f)] == b && a[1 := Marked(f)] == m && b[0 := Marked(f)] == m;
    assert [f, f][..1] == [f] && [f][..0] == [];
    OneLeft(a, f, 1);
    OneLeft(b, f, 0);
    assert MarkingsFrom(u, [f, f], 2) == [];
    assert MarkingsFrom(u, [f, f], 1) == [m];
    assert MarkingsFrom(u, [f, f], 0) == [m] + [m];
    MarkingsStart(u, [f, f]);
  }

  /** What reaches figureMoveScore and saveMoveIfQualifies, in order. */
  class MoveScorer {
    var scored: seq<seq<CellTile>>

    constructor ()
      ensures scored == []
    {
      scored := [];
    }

    /** The tiles of the move are marked in place and put back. */
    method ConsiderScoreWordHasBlanks(blankValues: seq<Tile>, blanksLeft: nat, tiles: array<CellTile>)
      requires blanksLeft <= |blankValues|
      modifies this, tiles
      ensures tiles[..] == old(tiles[..])
      ensures scored == old(scored) + Markings(old(tiles[..]), blankValues[..blanksLeft])
      decreases blanksLeft
    {
      hide Markings, MarkingsFrom;
      MarkingsStart(tiles[..], blankValues[..blanksLeft]);
      if blanksLeft == 0 {
        scored := scored + [tiles[..]];
      } else {
        ghost var before, start, blanks := tiles[..], scored, blankValues[..blanksLeft];
        var bTile := blankValues[blanksLeft - 1];
        var ii := 0;
        while ii < tiles.Length
          invariant 0 <= ii <= tiles.Length && tiles[..] == before
          invariant start + MarkingsFrom(before, blanks, 0) == scored + MarkingsFrom(before, blanks, ii)
        {
          var tile := tiles[ii];
          assert before[ii] == tile;
          MarkingsStep(before, blanks, ii, scored);
          if Face(tile) == bTile && !IsBlank(tile) {
            tiles[ii] := tile + TILE_BLANK_BIT;
            assert tiles[..] == before[ii := Marked(tile)];
            assert blankValues[..blanksLeft - 1] == blanks[..|blanks| - 1];
            ConsiderScoreWordHasBlanks(blankValues, blanksLeft - 1, tiles);
            assert tiles[ii] == tiles[..][ii] == Marked(tile);
            tiles[ii] := tiles[ii] - TILE_BLANK_BIT;
            assert tiles[..] == before;
          }
          ii := ii + 1;
        }
      }
    }
  }
}
