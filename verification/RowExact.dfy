/** The row search of RowSearch finds exactly the legal placements, each once. */
module RowExact {
  import opened Wrappers
  import opened Dawg
  import opened RowSearch

  // ----- shape of the candidates ------------------------------------------------------------

  /** From index `i` on, the plays lie on empty squares from column `col` rightwards, in order. */
  ghost predicate PlaysFrom(s: seq<Option<Tile>>, p: seq<Play>, i: nat, col: nat) {
    && (forall j {:trigger p[j]} :: i <= j < |p| ==> col <= p[j].col < |s| && s[p[j].col].None?)
    && (forall j, k :: i <= j < k < |p| ==> p[j].col < p[k].col)
  }

  ghost predicate ShapeOk(s: seq<Option<Tile>>, placed: seq<Play>, col: nat, c: Candidate) {
    placed <= c.plays && PlaysFrom(s, c.plays, |placed|, col)
  }

  lemma {:induction false} ExtendShape(x: Row, r: Rack, placed: seq<Play>, e: Option<nat>, acc: bool, col: nat, c: Candidate)
    requires ValidRow(x) && ValidEdge(x.d, e) && ValidRack(x.d, r) && col <= |x.squares|
    requires c in ExtendRight(x, r, placed, e, acc, col)
    ensures ShapeOk(x.squares, placed, col, c)
    ensures c.plays == placed ==> (col < |x.squares| && x.squares[col].Some?) || acc
    decreases |x.squares| - col, 1, 0
  {
    if col < |x.squares| && x.squares[col].None? {
      if e.Some? && r.nTilesMax > 0 && c in ExtendSiblings(x, r, placed, e.value, col) {
        var _ := SiblingsShape(x, r, placed, e.value, col, c);
      }
    } else if col < |x.squares| {
      var k := EdgeWithTile(x.d, e.value, x.squares[col].value).value;
      ExtendShape(x, r, placed, Follow(x.d, k), x.d.edges[k].accepting, col + 1, c);
    }
  }

  /** Every candidate of the sibling loop comes from one edge of the run and plays its tile. */
  lemma {:induction false} SiblingsShape(x: Row, r: Rack, placed: seq<Play>, k: nat, col: nat, c: Candidate) returns (j: nat)
    requires ValidRow(x) && k < |x.d.edges| && ValidRack(x.d, r) && col < |x.squares| && x.squares[col].None?
    requires c in ExtendSiblings(x, r, placed, k, col)
    ensures InRun(x.d, k, j) && c in ExtendBranch(x, r, placed, j, col)
    ensures |placed| < |c.plays| && c.plays[|placed|] == Play(col, x.d.edges[j].tile)
    ensures ShapeOk(x.squares, placed, col, c)
    decreases |x.squares| - col, 0, |x.d.edges| - k
  {
    hide ExtendBranch, ShapeOk;
    if c in ExtendBranch(x, r, placed, k, col) {
      j := k;
      BranchShape(x, r, placed, k, col, c);
    } else {
      j := SiblingsShape(x, r, placed, k + 1, col, c);
    }
  }

  lemma {:induction false} BranchShape(x: Row, r: Rack, placed: seq<Play>, k: nat, col: nat, c: Candidate)
    requires ValidRow(x) && k < |x.d.edges| && ValidRack(x.d, r) && col < |x.squares| && x.squares[col].None?
    requires c in ExtendBranch(x, r, placed, k, col)
    ensures |placed| < |c.plays| && c.plays[|placed|] == Play(col, x.d.edges[k].tile)
    ensures ShapeOk(x.squares, placed, col, c)
    decreases |x.squares| - col, 0, 0
  {
    var t := x.d.edges[k].tile;
    var placed' := placed + [Play(col, t)];
    ExtendShape(x, RackRemove(x.d, r, t).value, placed', Follow(x.d, k), x.d.edges[k].accepting, col + 1, c);
    assert placed' <= c.plays;
    assert c.plays[|placed|] == placed'[|placed|];
    assert placed == placed'[..|placed|];
  }

  lemma {:induction false} BranchInSiblings(x: Row, r: Rack, placed: seq<Play>, k: nat, col: nat, j: nat, c: Candidate)
    requires ValidRow(x) && InRun(x.d, k, j) && ValidRack(x.d, r) && col < |x.squares|
    requires c in ExtendBranch(x, r, placed, j, col)
    ensures c in ExtendSiblings(x, r, placed, k, col)
    decreases j - k
  {
    hide ExtendBranch, ExtendSiblings, Sane;
    SiblingsIs(x, r, placed, k, col);
    if k < j {
      BranchInSiblings(x, r, placed, k + 1, col, j, c);
    }
  }

  lemma SiblingsIs(x: Row, r: Rack, placed: seq<Play>, k: nat, col: nat)
    requires ValidRow(x) && k < |x.d.edges| && ValidRack(x.d, r) && col < |x.squares|
    ensures ExtendSiblings(x, r, placed, k, col) ==
              ExtendBranch(x, r, placed, k, col)
              + if x.d.edges[k].last || k + 1 == |x.d.edges| then [] else ExtendSiblings(x, r, placed, k + 1, col)
  {
    hide ExtendBranch, Sane;
  }

  // ----- extendRight is exact ---------------------------------------------------------------

  /** Some play is on column `c`. */
  ghost predicate Covers(p: seq<Play>, c: nat) {
    exists j {:trigger p[j]} :: 0 <= j < |p| && p[j].col == c
  }

  /** `o` is the row with the plays put on it. */
  ghost predicate IsOverlay(s: seq<Option<Tile>>, p: seq<Play>, o: seq<Option<Tile>>) {
    && |o| == |s|
    && (forall j {:trigger p[j]} :: 0 <= j < |p| ==> p[j].col < |s| && o[p[j].col] == Some(p[j].tile))
    && (forall c {:trigger o[c]} :: 0 <= c < |s| ==> o[c] == s[c] || Covers(p, c))
  }

  /** The plays from index `i` on finish a word at column `col`: they fill every gap up to the
      last of them, the letters from `col` are spelled from `e`, every cross-check agrees, and
      the rack yields the tiles, leaving `blanks` as the blank faces. */
  ghost predicate Completes(x: Row, r: Rack, p: seq<Play>, i: nat, e: Option<nat>, acc: bool, col: nat,
                            blanks: seq<Tile>, o: seq<Option<Tile>>)
    requires ValidRow(x) && ValidEdge(x.d, e) && ValidRack(x.d, r) && col <= |x.squares| == |o| && i <= |p|
    requires forall j {:trigger p[j]} :: i <= j < |p| ==> p[j].col < |x.squares|
  {
    var end := RunRight(o, col);
    && (i < |p| ==> p[|p| - 1].col < end)
    && (if end == col then acc else Accepts(x.d, e, Letters(o, col, end)))
    && (forall j {:trigger p[j]} :: i <= j < |p| ==> p[j].tile in x.checks[p[j].col])
    && Draw(x.d, r, Tiles(p[i..])).Some? && Draw(x.d, r, Tiles(p[i..])).value.blanks == blanks
  }

  lemma {:induction false} ExtendExact(x: Row, r: Rack, p: seq<Play>, i: nat, e: Option<nat>, acc: bool, col: nat,
                                       blanks: seq<Tile>, o: seq<Option<Tile>>)
    requires ValidRow(x) && ValidEdge(x.d, e) && ValidRack(x.d, r) && col <= |x.squares| && i <= |p|
    requires PlaysFrom(x.squares, p, i, col) && IsOverlay(x.squares, p, o)
    requires forall j {:trigger p[j]} :: 0 <= j < i ==> p[j].col < col
    ensures Candidate(p, blanks) in ExtendRight(x, r, p[..i], e, acc, col) <==> Completes(x, r, p, i, e, acc, col, blanks, o)
    decreases |x.squares| - col, 1
  {
    assert |o| == |x.squares|;
    hide IsOverlay, Completes, ExtendRight, Covers;
    if col == |x.squares| {
      ExtendExactEdge(x, r, p, i, e, acc, col, blanks, o);
    } else if x.squares[col].Some? {
      ExtendExactFilled(x, r, p, i, e, acc, col, blanks, o);
    } else if i < |p| && p[i].col == col {
      ExtendExactPlay(x, r, p, i, e, acc, col, blanks, o);
    } else {
      ExtendExactStop(x, r, p, i, e, acc, col, blanks, o);
    }
  }

  lemma NoPlaysLeft(s: seq<Option<Tile>>, p: seq<Play>, i: nat)
    requires i < |p| && PlaysFrom(s, p, i, |s|)
    ensures false
  {
    assert p[i].col >= |s|;
  }

  lemma {:induction false} ExtendExactEdge(x: Row, r: Rack, p: seq<Play>, i: nat, e: Option<nat>, acc: bool, col: nat,
                                           blanks: seq<Tile>, o: seq<Option<Tile>>)
    requires ValidRow(x) && ValidEdge(x.d, e) && ValidRack(x.d, r) && col == |x.squares| == |o| && i <= |p|
    requires PlaysFrom(x.squares, p, i, col)
    ensures Candidate(p, blanks) in ExtendRight(x, r, p[..i], e, acc, col) <==> Completes(x, r, p, i, e, acc, col, blanks, o)
  {
    if i < |p| {
      NoPlaysLeft(x.squares, p, i);
    }
    assert p[..i] == p && p[i..] == [] && Tiles(p[i..]) == [];
  }

  /** The step at an empty square without a play: the word ends here. */
  lemma {:induction false} ExtendExactStop(x: Row, r: Rack, p: seq<Play>, i: nat, e: Option<nat>, acc: bool, col: nat,
                                           blanks: seq<Tile>, o: seq<Option<Tile>>)
    requires ValidRow(x) && ValidEdge(x.d, e) && ValidRack(x.d, r) && col < |x.squares| && i <= |p|
    requires PlaysFrom(x.squares, p, i, col) && IsOverlay(x.squares, p, o)
    requires forall j {:trigger p[j]} :: 0 <= j < i ==> p[j].col < col
    requires x.squares[col].None? && (i < |p| ==> p[i].col != col)
    ensures Candidate(p, blanks) in ExtendRight(x, r, p[..i], e, acc, col) <==> Completes(x, r, p, i, e, acc, col, blanks, o)
  {
    NotCovered(x.squares, p, i, col);
    assert o[col].None? && RunRight(o, col) == col;
    NoSiblingStops(x, r, p, i, e, col, blanks);
    assert i < |p| ==> col < p[|p| - 1].col by {
      if i < |p| - 1 { assert p[i].col < p[|p| - 1].col; }
    }
    hide IsOverlay, Covers, PlaysFrom;
    if i == |p| {
      assert p[..i] == p && p[i..] == [] && Tiles(p[i..]) == [];
    } else {
      assert Candidate(p, blanks) != Candidate(p[..i], r.blanks);
    }
  }

  lemma NotCovered(s: seq<Option<Tile>>, p: seq<Play>, i: nat, col: nat)
    requires PlaysFrom(s, p, i, col) && i <= |p|
    requires forall j {:trigger p[j]} :: 0 <= j < i ==> p[j].col < col
    requires i < |p| ==> p[i].col != col
    ensures !Covers(p, col)
  {
    forall j | 0 <= j < |p|
      ensures p[j].col != col
    {
      if i < j { assert p[i].col < p[j].col; }
    }
  }

  lemma {:induction false} NoSiblingStops(x: Row, r: Rack, p: seq<Play>, i: nat, e: Option<nat>, col: nat, blanks: seq<Tile>)
    requires ValidRow(x) && ValidEdge(x.d, e) && ValidRack(x.d, r) && col < |x.squares| && i <= |p|
    requires x.squares[col].None? && (i < |p| ==> p[i].col != col)
    ensures e.Some? ==> Candidate(p, blanks) !in ExtendSiblings(x, r, p[..i], e.value, col)
  {
    if e.Some? && Candidate(p, blanks) in ExtendSiblings(x, r, p[..i], e.value, col) {
      var j := SiblingsShape(x, r, p[..i], e.value, col, Candidate(p, blanks));
      assert false;
    }
  }

  /** A candidate whose next play is on this column comes from the edge that carries its tile. */
  lemma {:induction false} ExtendPicksBranch(x: Row, r: Rack, placed: seq<Play>, e: Option<nat>, acc: bool, col: nat, c: Candidate)
    requires ValidRow(x) && ValidEdge(x.d, e) && ValidRack(x.d, r) && col < |x.squares| && x.squares[col].None?
    requires |placed| < |c.plays|
    ensures c in ExtendRight(x, r, placed, e, acc, col) <==>
              e.Some? && EdgeWithTile(x.d, e.value, c.plays[|placed|].tile).Some?
              && c in ExtendBranch(x, r, placed, EdgeWithTile(x.d, e.value, c.plays[|placed|].tile).value, col)
  {
    var t := c.plays[|placed|].tile;
    assert c != Candidate(placed, r.blanks);
    if e.Some? {
      if c in ExtendSiblings(x, r, placed, e.value, col) {
        var j := SiblingsShape(x, r, placed, e.value, col, c);
        EdgeWithTileExact(x.d, e.value, t, j);
      }
      var k := EdgeWithTile(x.d, e.value, t);
      if k.Some? && c in ExtendBranch(x, r, placed, k.value, col) {
        EdgeWithTileExact(x.d, e.value, t, k.value);
        BranchInSiblings(x, r, placed, e.value, col, k.value, c);
      }
    }
  }

  /** One play peeled off `Completes`. */
  lemma {:induction false} CompletesPlay(x: Row, r: Rack, p: seq<Play>, i: nat, e: Option<nat>, acc: bool, col: nat,
                                         blanks: seq<Tile>, o: seq<Option<Tile>>)
    requires ValidRow(x) && ValidEdge(x.d, e) && ValidRack(x.d, r) && col < |x.squares| && i < |p|
    requires |o| == |x.squares| && o[col] == Some(p[i].tile) && p[i].col == col
    requires forall j {:trigger p[j]} :: 0 <= j < |p| ==> p[j].col < |x.squares|
    ensures Completes(x, r, p, i, e, acc, col, blanks, o) <==>
              var k := if e.Some? then EdgeWithTile(x.d, e.value, p[i].tile) else None;
              k.Some? && p[i].tile in x.checks[col] && RackRemove(x.d, r, p[i].tile).Some?
              && Completes(x, RackRemove(x.d, r, p[i].tile).value, p, i + 1, Follow(x.d, k.value),
                           x.d.edges[k.value].accepting, col + 1, blanks, o)
  {
    hide RackRemove, RunRight, Letters, EdgeWithTile, Tiles, Sane;
    LettersFirst(o, col);
    TilesFirst(p, i);
  }

  lemma LettersFirst(o: seq<Option<Tile>>, col: nat)
    requires col < |o| && o[col].Some?
    ensures RunRight(o, col) == RunRight(o, col + 1) > col
    ensures var end := RunRight(o, col);
            var w := Letters(o, col, end);
            |w| == end - col && w[0] == o[col].value && w[1..] == Letters(o, col + 1, end)
  {}

  lemma TilesFirst(p: seq<Play>, i: nat)
    requires i < |p|
    ensures var ts := Tiles(p[i..]); |ts| > 0 && ts[0] == p[i].tile && ts[1..] == Tiles(p[i + 1..])
  {}

  lemma PlayedNext(s: seq<Option<Tile>>, p: seq<Play>, i: nat, col: nat, o: seq<Option<Tile>>)
    requires i < |p| && PlaysFrom(s, p, i, col) && p[i].col == col
    requires forall j {:trigger p[j]} :: 0 <= j < i ==> p[j].col < col
    requires IsOverlay(s, p, o)
    ensures PlaysFrom(s, p, i + 1, col + 1)
    ensures forall j {:trigger p[j]} :: 0 <= j < i + 1 ==> p[j].col < col + 1
    ensures |o| == |s| && o[col] == Some(p[i].tile)
    ensures forall j {:trigger p[j]} :: 0 <= j < |p| ==> p[j].col < |s|
  {}

  /** The step where the next play is on this very column. */
  lemma {:induction false} ExtendExactPlay(x: Row, r: Rack, p: seq<Play>, i: nat, e: Option<nat>, acc: bool, col: nat,
                                           blanks: seq<Tile>, o: seq<Option<Tile>>)
    requires ValidRow(x) && ValidEdge(x.d, e) && ValidRack(x.d, r) && col < |x.squares| && i < |p|
    requires PlaysFrom(x.squares, p, i, col) && IsOverlay(x.squares, p, o)
    requires forall j {:trigger p[j]} :: 0 <= j < i ==> p[j].col < col
    requires x.squares[col].None? && p[i].col == col
    ensures Candidate(p, blanks) in ExtendRight(x, r, p[..i], e, acc, col) <==> Completes(x, r, p, i, e, acc, col, blanks, o)
    decreases |x.squares| - col, 0
  {
    hide IsOverlay, PlaysFrom, Covers, Completes, ExtendRight, RackRemove, EdgeWithTile;
    var c := Candidate(p, blanks);
    var t := p[i].tile;
    PlayedNext(x.squares, p, i, col, o);
    ExtendPicksBranch(x, r, p[..i], e, acc, col, c);
    CompletesPlay(x, r, p, i, e, acc, col, blanks, o);
    if e.Some? && EdgeWithTile(x.d, e.value, t).Some? && RackRemove(x.d, r, t).Some? {
      var k := EdgeWithTile(x.d, e.value, t).value;
      assert p[..i + 1] == p[..i] + [Play(col, t)];
      ExtendExact(x, RackRemove(x.d, r, t).value, p, i + 1, Follow(x.d, k), x.d.edges[k].accepting, col + 1, blanks, o);
    }
  }

  /** The step over a square that already holds a tile. */
  lemma {:induction false} ExtendExactFilled(x: Row, r: Rack, p: seq<Play>, i: nat, e: Option<nat>, acc: bool, col: nat,
                                             blanks: seq<Tile>, o: seq<Option<Tile>>)
    requires ValidRow(x) && ValidEdge(x.d, e) && ValidRack(x.d, r) && col < |x.squares| && i <= |p|
    requires PlaysFrom(x.squares, p, i, col) && IsOverlay(x.squares, p, o)
    requires forall j {:trigger p[j]} :: 0 <= j < i ==> p[j].col < col
    requires x.squares[col].Some?
    ensures Candidate(p, blanks) in ExtendRight(x, r, p[..i], e, acc, col) <==> Completes(x, r, p, i, e, acc, col, blanks, o)
    decreases |x.squares| - col, 0
  {
    hide IsOverlay, PlaysFrom, Covers, Completes, Accepts, EdgeWithTile;
    FilledNext(x.squares, p, i, col, o);
    var t := x.squares[col].value;
    CompletesFilled(x, r, p, i, e, acc, col, blanks, o);
    if e.Some? && EdgeWithTile(x.d, e.value, t).Some? {
      var k := EdgeWithTile(x.d, e.value, t).value;
      ExtendExact(x, r, p, i, Follow(x.d, k), x.d.edges[k].accepting, col + 1, blanks, o);
    }
  }

  lemma FilledNext(s: seq<Option<Tile>>, p: seq<Play>, i: nat, col: nat, o: seq<Option<Tile>>)
    requires i <= |p| && PlaysFrom(s, p, i, col) && IsOverlay(s, p, o) && col < |s| && s[col].Some?
    requires forall j {:trigger p[j]} :: 0 <= j < i ==> p[j].col < col
    ensures PlaysFrom(s, p, i, col + 1)
    ensures forall j {:trigger p[j]} :: 0 <= j < i ==> p[j].col < col + 1
    ensures |o| == |s| && o[col] == s[col]
    ensures forall j {:trigger p[j]} :: i <= j < |p| ==> p[j].col < |s|
  {
    assert i < |p| ==> p[i].col != col;
    NotCovered(s, p, i, col);
  }

  /** A filled square peeled off `Completes`. */
  lemma {:induction false} CompletesFilled(x: Row, r: Rack, p: seq<Play>, i: nat, e: Option<nat>, acc: bool, col: nat,
                                           blanks: seq<Tile>, o: seq<Option<Tile>>)
    requires ValidRow(x) && ValidEdge(x.d, e) && ValidRack(x.d, r) && col < |x.squares| == |o| && i <= |p|
    requires forall j {:trigger p[j]} :: i <= j < |p| ==> p[j].col < |x.squares|
    requires o[col].Some?
    ensures Completes(x, r, p, i, e, acc, col, blanks, o) <==>
              var k := if e.Some? then EdgeWithTile(x.d, e.value, o[col].value) else None;
              k.Some? && Completes(x, r, p, i, Follow(x.d, k.value), x.d.edges[k.value].accepting, col + 1, blanks, o)
  {
    var end := RunRight(o, col);
    assert end == RunRight(o, col + 1);
    var w := Letters(o, col, end);
    assert w[0] == o[col].value && w[1..] == Letters(o, col + 1, end);
    assert |w| == 1 <==> end == col + 1;
  }

  // ----- leftPart is exact ------------------------------------------------------------------

  /** `c` puts `l` tiles left of the anchor, flush against it, beginning with `w`. */
  ghost predicate LeftShapeOk(x: Row, w: seq<Tile>, limit: nat, anchor: nat, c: Candidate, l: nat) {
    && |w| <= l <= |w| + limit <= anchor && l <= |c.plays|
    && w <= Tiles(c.plays[..l])
    && c.plays[..l] == LaidLeft(Tiles(c.plays[..l]), anchor)
    && PlaysFrom(x.squares, c.plays, l, anchor)
  }

  lemma {:induction false} LeftShape(x: Row, r: Rack, w: seq<Tile>, e: Option<nat>, limit: nat, anchor: nat, c: Candidate)
    returns (l: nat)
    requires ValidRow(x) && ValidEdge(x.d, e) && ValidRack(x.d, r) && |w| + limit <= anchor < |x.squares|
    requires c in LeftPart(x, r, w, e, limit, anchor)
    ensures LeftShapeOk(x, w, limit, anchor, c, l)
    decreases limit, 1, 0
  {
    if c in ExtendRight(x, r, LaidLeft(w, anchor), e, false, anchor) {
      l := |w|;
      ExtendShape(x, r, LaidLeft(w, anchor), e, false, anchor, c);
      assert c.plays[..l] == LaidLeft(w, anchor);
      assert Tiles(c.plays[..l]) == w;
    } else {
      var j;
      j, l := LeftSiblingsShape(x, r, w, e.value, limit, anchor, c);
    }
  }

  lemma {:induction false} LeftSiblingsShape(x: Row, r: Rack, w: seq<Tile>, k: nat, limit: nat, anchor: nat, c: Candidate)
    returns (j: nat, l: nat)
    requires ValidRow(x) && k < |x.d.edges| && ValidRack(x.d, r) && limit > 0 && |w| + limit <= anchor < |x.squares|
    requires c in LeftSiblings(x, r, w, k, limit, anchor)
    ensures InRun(x.d, k, j) && c in LeftBranch(x, r, w, j, limit, anchor)
    ensures LeftShapeOk(x, w, limit, anchor, c, l) && |w| < l && c.plays[|w|].tile == x.d.edges[j].tile
    decreases limit, 0, |x.d.edges| - k
  {
    hide LeftBranch, LeftSiblings, LeftShapeOk, Sane, RackRemove;
    LeftSiblingsIs(x, r, w, k, limit, anchor);
    if c in LeftBranch(x, r, w, k, limit, anchor) {
      j := k;
      l := LeftBranchShape(x, r, w, k, limit, anchor, c);
    } else {
      j, l := LeftSiblingsShape(x, r, w, k + 1, limit, anchor, c);
    }
  }

  lemma LeftSiblingsIs(x: Row, r: Rack, w: seq<Tile>, k: nat, limit: nat, anchor: nat)
    requires ValidRow(x) && k < |x.d.edges| && ValidRack(x.d, r) && limit > 0 && |w| + limit <= anchor < |x.squares|
    ensures LeftSiblings(x, r, w, k, limit, anchor) ==
              LeftBranch(x, r, w, k, limit, anchor)
              + if x.d.edges[k].last || k + 1 == |x.d.edges| then [] else LeftSiblings(x, r, w, k + 1, limit, anchor)
  {
    hide LeftBranch, WellFormed;
  }

  lemma {:induction false} LeftBranchShape(x: Row, r: Rack, w: seq<Tile>, k: nat, limit: nat, anchor: nat, c: Candidate)
    returns (l: nat)
    requires ValidRow(x) && k < |x.d.edges| && ValidRack(x.d, r) && limit > 0 && |w| + limit <= anchor < |x.squares|
    requires c in LeftBranch(x, r, w, k, limit, anchor)
    ensures LeftShapeOk(x, w, limit, anchor, c, l) && |w| < l <= |c.plays| && c.plays[|w|].tile == x.d.edges[k].tile
    decreases limit, 0, 0
  {
    hide RackRemove, PlaysFrom, LeftPart, LaidLeft, LeftShapeOk;
    var w' := w + [x.d.edges[k].tile];
    l := LeftShape(x, RackRemove(x.d, r, x.d.edges[k].tile).value, w', Follow(x.d, k), limit - 1, anchor, c);
    ShapeWithout(x, w, x.d.edges[k].tile, limit, anchor, c, l);
  }

  lemma ShapeWithout(x: Row, w: seq<Tile>, t: Tile, limit: nat, anchor: nat, c: Candidate, l: nat)
    requires limit > 0 && LeftShapeOk(x, w + [t], limit - 1, anchor, c, l)
    ensures LeftShapeOk(x, w, limit, anchor, c, l) && |w| < l <= |c.plays| && c.plays[|w|].tile == t
  {
    hide PlaysFrom;
    var w' := w + [t];
    assert w == w'[..|w|];
    assert Tiles(c.plays[..l])[|w|] == w'[|w|];
  }

  lemma {:induction false} BranchInLeftSiblings(x: Row, r: Rack, w: seq<Tile>, k: nat, limit: nat, anchor: nat, j: nat, c: Candidate)
    requires ValidRow(x) && InRun(x.d, k, j) && ValidRack(x.d, r) && limit > 0 && |w| + limit <= anchor < |x.squares|
    requires c in LeftBranch(x, r, w, j, limit, anchor)
    ensures c in LeftSiblings(x, r, w, k, limit, anchor)
    decreases j - k
  {
    hide LeftBranch, LeftSiblings, Sane;
    LeftSiblingsIs(x, r, w, k, limit, anchor);
    if k < j {
      BranchInLeftSiblings(x, r, w, k + 1, limit, anchor, j, c);
    }
  }

  lemma LaidLeftCols(c: Candidate, anchor: nat, l: nat)
    requires l <= |c.plays| && l <= anchor && c.plays[..l] == LaidLeft(Tiles(c.plays[..l]), anchor)
    ensures forall i {:trigger c.plays[i]} :: 0 <= i < l ==> c.plays[i].col == anchor - l + i
  {
    forall i | 0 <= i < l
      ensures c.plays[i].col == anchor - l + i
    {
      assert c.plays[..l][i] == c.plays[i];
    }
  }

  /** The number of plays left of the anchor is determined by the plays. */
  lemma LeftCountUnique(x: Row, c: Candidate, anchor: nat, l: nat, l': nat)
    requires l <= |c.plays| && l' <= |c.plays| && l <= anchor && l' <= anchor
    requires c.plays[..l] == LaidLeft(Tiles(c.plays[..l]), anchor) && PlaysFrom(x.squares, c.plays, l, anchor)
    requires c.plays[..l'] == LaidLeft(Tiles(c.plays[..l']), anchor) && PlaysFrom(x.squares, c.plays, l', anchor)
    ensures l == l'
  {
    LaidLeftCols(c, anchor, l);
    LaidLeftCols(c, anchor, l');
    assert l < |c.plays| ==> (c.plays[l].col < anchor <==> l < l');
    assert l' < |c.plays| ==> (c.plays[l'].col < anchor <==> l' < l);
  }

  /** The tiles `t` can be drawn and followed from `e`, and extendRight then yields `c`. */
  ghost predicate ReachesAnchor(x: Row, r: Rack, c: Candidate, l: nat, e: Option<nat>, t: seq<Tile>, anchor: nat)
    requires ValidRow(x) && ValidEdge(x.d, e) && ValidRack(x.d, r) && l <= |c.plays| && anchor < |x.squares|
  {
    FollowPath(x.d, e, t).Some? && Draw(x.d, r, t).Some?
    && c in ExtendRight(x, Draw(x.d, r, t).value, c.plays[..l], FollowPath(x.d, e, t).value, false, anchor)
  }

  lemma ReachesAnchorStep(x: Row, r: Rack, c: Candidate, l: nat, e: Option<nat>, t: seq<Tile>, anchor: nat)
    requires ValidRow(x) && ValidEdge(x.d, e) && ValidRack(x.d, r) && l <= |c.plays| && anchor < |x.squares| && t != []
    ensures ReachesAnchor(x, r, c, l, e, t, anchor) <==>
              e.Some? && EdgeWithTile(x.d, e.value, t[0]).Some? && RackRemove(x.d, r, t[0]).Some?
              && ReachesAnchor(x, RackRemove(x.d, r, t[0]).value, c, l,
                               Follow(x.d, EdgeWithTile(x.d, e.value, t[0]).value), t[1..], anchor)
  {}

  /** leftPart yields `c` iff the rest of the tiles left of the anchor lead there. */
  lemma {:induction false} LeftExact(x: Row, r: Rack, c: Candidate, l: nat, m: nat, e: Option<nat>, limit: nat, anchor: nat)
    requires ValidRow(x) && ValidEdge(x.d, e) && ValidRack(x.d, r)
    requires m <= l <= |c.plays| && l - m <= limit && m + limit <= anchor < |x.squares|
    requires c.plays[..l] == LaidLeft(Tiles(c.plays[..l]), anchor) && PlaysFrom(x.squares, c.plays, l, anchor)
    ensures c in LeftPart(x, r, Tiles(c.plays[..l])[..m], e, limit, anchor) <==>
              ReachesAnchor(x, r, c, l, e, Tiles(c.plays[..l])[m..], anchor)
    decreases l - m
  {
    var all := Tiles(c.plays[..l]);
    var w, t := all[..m], all[m..];
    if c in ExtendRight(x, r, LaidLeft(w, anchor), e, false, anchor) {
      ExtendShape(x, r, LaidLeft(w, anchor), e, false, anchor, c);
      assert c.plays[..m] == LaidLeft(w, anchor) && Tiles(c.plays[..m]) == w;
      LeftCountUnique(x, c, anchor, l, m);
    }
    if m == l {
      assert w == all && t == [];
      if limit > 0 && e.Some? && r.nTilesMax > 0 && c in LeftSiblings(x, r, w, e.value, limit, anchor) {
        var j, l' := LeftSiblingsShape(x, r, w, e.value, limit, anchor, c);
        LeftCountUnique(x, c, anchor, l, l');
      }
    } else {
      LeftExactStep(x, r, c, l, m, e, limit, anchor);
    }
  }

  lemma {:induction false} LeftPicksBranch(x: Row, r: Rack, w: seq<Tile>, e: Option<nat>, limit: nat, anchor: nat, c: Candidate)
    requires ValidRow(x) && ValidEdge(x.d, e) && ValidRack(x.d, r) && limit > 0 && |w| + limit <= anchor < |x.squares|
    requires c !in ExtendRight(x, r, LaidLeft(w, anchor), e, false, anchor)
    requires |w| < |c.plays|
    ensures c in LeftPart(x, r, w, e, limit, anchor) <==>
              e.Some? && EdgeWithTile(x.d, e.value, c.plays[|w|].tile).Some?
              && c in LeftBranch(x, r, w, EdgeWithTile(x.d, e.value, c.plays[|w|].tile).value, limit, anchor)
  {
    if e.Some? && r.nTilesMax > 0 {
      var t := c.plays[|w|].tile;
      if c in LeftSiblings(x, r, w, e.value, limit, anchor) {
        var j, l := LeftSiblingsShape(x, r, w, e.value, limit, anchor, c);
        EdgeWithTileExact(x.d, e.value, t, j);
      }
      var k := EdgeWithTile(x.d, e.value, t);
      if k.Some? && c in LeftBranch(x, r, w, k.value, limit, anchor) {
        EdgeWithTileExact(x.d, e.value, t, k.value);
        BranchInLeftSiblings(x, r, w, e.value, limit, anchor, k.value, c);
      }
    }
  }

  lemma {:induction false} LeftExactStep(x: Row, r: Rack, c: Candidate, l: nat, m: nat, e: Option<nat>, limit: nat, anchor: nat)
    requires ValidRow(x) && ValidEdge(x.d, e) && ValidRack(x.d, r)
    requires m < l <= |c.plays| && l - m <= limit && m + limit <= anchor < |x.squares|
    requires c.plays[..l] == LaidLeft(Tiles(c.plays[..l]), anchor) && PlaysFrom(x.squares, c.plays, l, anchor)
    requires c !in ExtendRight(x, r, LaidLeft(Tiles(c.plays[..l])[..m], anchor), e, false, anchor)
    ensures c in LeftPart(x, r, Tiles(c.plays[..l])[..m], e, limit, anchor) <==>
              ReachesAnchor(x, r, c, l, e, Tiles(c.plays[..l])[m..], anchor)
    decreases l - m, 0
  {
    hide PlaysFrom, ReachesAnchor, ExtendRight, LeftPart, EdgeWithTile, RackRemove;
    var all := Tiles(c.plays[..l]);
    var w, t := all[..m], all[m..];
    assert t[0] == all[m] == c.plays[m].tile && t[1..] == all[m + 1..];
    ReachesAnchorStep(x, r, c, l, e, t, anchor);
    LeftPicksBranch(x, r, w, e, limit, anchor, c);
    if e.Some? && EdgeWithTile(x.d, e.value, t[0]).Some? {
      var k := EdgeWithTile(x.d, e.value, t[0]).value;
      if RackRemove(x.d, r, t[0]).Some? {
        assert all[..m + 1] == w + [t[0]];
        LeftExact(x, RackRemove(x.d, r, t[0]).value, c, l, m + 1, Follow(x.d, k), limit - 1, anchor);
        assert c in LeftBranch(x, r, w, k, limit, anchor) <==>
          ReachesAnchor(x, RackRemove(x.d, r, t[0]).value, c, l, Follow(x.d, k), t[1..], anchor);
      }
    }
  }

  // ----- legal placements -------------------------------------------------------------------

  /** The row with the plays put on it, one after another. */
  ghost function Overlay(s: seq<Option<Tile>>, p: seq<Play>): (o: seq<Option<Tile>>)
    requires forall j {:trigger p[j]} :: 0 <= j < |p| ==> p[j].col < |s|
    ensures |o| == |s|
  {
    if p == [] then s
    else
      var last := p[|p| - 1];
      Overlay(s, p[..|p| - 1])[last.col := Some(last.tile)]
  }

  lemma {:induction false} OverlayIs(s: seq<Option<Tile>>, p: seq<Play>)
    requires PlaysFrom(s, p, 0, 0)
    ensures IsOverlay(s, p, Overlay(s, p))
  {
    if p != [] {
      var q := p[..|p| - 1];
      assert PlaysFrom(s, q, 0, 0) by {
        assert forall j :: 0 <= j < |q| ==> q[j] == p[j];
      }
      OverlayIs(s, q);
      OverlayStep(s, p, Overlay(s, q));
    }
  }

  lemma OverlayStep(s: seq<Option<Tile>>, p: seq<Play>, before: seq<Option<Tile>>)
    requires PlaysFrom(s, p, 0, 0) && p != [] && IsOverlay(s, p[..|p| - 1], before)
    ensures var last := p[|p| - 1]; IsOverlay(s, p, before[last.col := Some(last.tile)])
  {
    var q, last := p[..|p| - 1], p[|p| - 1];
    var o := before[last.col := Some(last.tile)];
    forall j {:trigger p[j]} | 0 <= j < |p|
      ensures p[j].col < |s| && o[p[j].col] == Some(p[j].tile)
    {
      if j < |q| {
        assert q[j] == p[j] && p[j].col < last.col;
      }
    }
    forall c {:trigger o[c]} | 0 <= c < |s|
      ensures o[c] == s[c] || Covers(p, c)
    {
      if c == last.col {
        assert p[|p| - 1].col == c;
      } else if Covers(q, c) {
        var j :| 0 <= j < |q| && q[j].col == c;
        assert p[j].col == c;
      }
    }
  }

  /** A legal way to play tiles from the rack on this row: on empty squares, with no gap between
      them, making with the tiles already there a word of the dictionary, on squares whose
      cross-check admits the tile, and with tiles (or, failing them, blanks) of the rack. */
  ghost predicate Legal(x: Row, r: Rack, c: Candidate)
    requires ValidRow(x) && ValidRack(x.d, r)
  {
    c.plays != [] && PlaysFrom(x.squares, c.plays, 0, 0) && LegalOn(x, r, c, Overlay(x.squares, c.plays))
  }

  /** The same, of plays known to lie on empty squares, `o` being the row with them on it. */
  ghost predicate LegalOn(x: Row, r: Rack, c: Candidate, o: seq<Option<Tile>>)
    requires ValidRow(x) && ValidRack(x.d, r) && |o| == |x.squares|
    requires c.plays != [] && forall j {:trigger c.plays[j]} :: 0 <= j < |c.plays| ==> c.plays[j].col < |o|
  {
    && var start, end := RunLeft(o, c.plays[0].col), RunRight(o, c.plays[0].col);
    && c.plays[|c.plays| - 1].col < end
    && Accepts(x.d, x.d.topEdge, Letters(o, start, end))
    && (forall j {:trigger c.plays[j]} :: 0 <= j < |c.plays| ==> c.plays[j].tile in x.checks[c.plays[j].col])
    && Draw(x.d, r, Tiles(c.plays)).Some? && Draw(x.d, r, Tiles(c.plays)).value.blanks == c.blanks
  }

  /** Anchors are empty; an empty square that is not an anchor has no filled neighbour on the
      row and an all-admitting cross-check. */
  ghost predicate AnchorsOk(x: Row, anchors: seq<bool>) {
    && |anchors| == |x.squares| == |x.checks|
    && (forall c :: 0 <= c < |anchors| && anchors[c] ==> x.squares[c].None?)
    && (forall c :: 0 <= c < |anchors| && !anchors[c] && x.squares[c].None? ==>
          (c > 0 ==> x.squares[c - 1].None?) && (c + 1 < |anchors| ==> x.squares[c + 1].None?)
          && forall t: Tile :: t < MAX_UNIQUE_TILES ==> t in x.checks[c])
  }

  /** Column `a` is an anchor the plays cover, and they cover none left of it. */
  ghost predicate FirstCovered(anchors: seq<bool>, p: seq<Play>, a: nat) {
    && a < |anchors| && anchors[a] && Covers(p, a)
    && (forall c :: 0 <= c < a && anchors[c] ==> !Covers(p, c))
  }

  /** Between the previous anchor (or the edge of the board) and anchor `a` there is no anchor. */
  ghost predicate Adjacent(anchors: seq<bool>, prev: int, a: nat) {
    && -1 <= prev < a < |anchors| && anchors[a]
    && (prev >= 0 ==> anchors[prev])
    && (forall c :: prev < c < a ==> !anchors[c])
  }

  /** If the square left of an anchor is empty, so is everything back to the previous anchor. */
  lemma {:induction false} GapEmpty(x: Row, anchors: seq<bool>, prev: int, a: nat, c: nat)
    requires AnchorsOk(x, anchors) && Adjacent(anchors, prev, a)
    requires a > 0 && x.squares[a - 1].None? && prev < c < a
    ensures x.squares[c].None?
    decreases a - c
  {
    if c < a - 1 {
      GapEmpty(x, anchors, prev, a, c + 1);
    }
  }

  /** Plays that cover every column from the first of them to `a` lie flush. */
  lemma {:induction false} Flush(s: seq<Option<Tile>>, p: seq<Play>, a: nat, j: nat)
    requires PlaysFrom(s, p, 0, 0) && p != [] && p[0].col <= a
    requires forall c :: p[0].col <= c < a ==> Covers(p, c)
    requires j <= a - p[0].col
    ensures j <= |p|
    ensures forall i {:trigger p[i]} :: 0 <= i < j ==> p[i].col == p[0].col + i
    ensures forall i {:trigger p[i]} :: j <= i < |p| ==> p[0].col + j <= p[i].col
    decreases j
  {
    if j > 0 {
      Flush(s, p, a, j - 1);
      var c := p[0].col + (j - 1);
      assert Covers(p, c);
      var i :| 0 <= i < |p| && p[i].col == c;
      assert j - 1 <= i && c <= p[j - 1].col;
    }
  }

  lemma {:induction false} AcceptedTilesFit(d: Dict, e: Option<nat>, w: seq<Tile>, i: nat)
    requires WellFormed(d) && ValidEdge(d, e) && Accepts(d, e, w) && i < |w|
    ensures w[i] < MAX_UNIQUE_TILES
    decreases |w|
  {
    var k := EdgeWithTile(d, e.value, w[0]).value;
    if i > 0 {
      AcceptedTilesFit(d, Follow(d, k), w[1..], i - 1);
    }
  }

  /** `l` of the plays lie left of the anchor `a`, one lies on it, and the squares between are
      filled; squares left of the anchor admit every tile. */
  ghost predicate SplitAt(x: Row, p: seq<Play>, l: nat, a: nat, o: seq<Option<Tile>>)
    requires ValidRow(x)
  {
    && l < |p| && PlaysFrom(x.squares, p, 0, 0) && PlaysFrom(x.squares, p, l, a) && p[l].col == a
    && (forall i {:trigger p[i]} :: 0 <= i < l ==>
          p[i].col < a && forall t: Tile :: t < MAX_UNIQUE_TILES ==> t in x.checks[p[i].col])
    && |o| == |x.squares| && RunRight(o, p[0].col) > a
  }

  lemma {:induction false} RunRightFrom(o: seq<Option<Tile>>, lo: nat, c: nat)
    requires lo <= |o| && lo <= c <= RunRight(o, lo)
    ensures RunRight(o, c) == RunRight(o, lo)
    decreases c - lo
  {
    if lo < c {
      RunRightFrom(o, lo + 1, c);
    }
  }

  lemma LettersSplit(o: seq<Option<Tile>>, lo: nat, mid: nat, hi: nat)
    requires lo <= mid <= hi <= |o| && forall i :: lo <= i < hi ==> o[i].Some?
    ensures Letters(o, lo, hi) == Letters(o, lo, mid) + Letters(o, mid, hi)
  {}

  lemma TilesSplit(p: seq<Play>, l: nat)
    requires l <= |p|
    ensures Tiles(p) == Tiles(p[..l]) + Tiles(p[l..])
  {}

  /** Letters, cross-checks and rack of a placement, cut at the anchor. */
  lemma {:induction false} LegalParts(x: Row, r: Rack, c: Candidate, l: nat, a: nat, o: seq<Option<Tile>>, start: nat, end: nat)
    requires ValidRow(x) && ValidRack(x.d, r) && SplitAt(x, c.plays, l, a, o) && IsOverlay(x.squares, c.plays, o)
    requires start == RunLeft(o, c.plays[0].col) && end == RunRight(o, c.plays[0].col) && start <= a < end
    ensures LegalOn(x, r, c, o) <==>
              && c.plays[|c.plays| - 1].col < end
              && Accepts(x.d, x.d.topEdge, Letters(o, start, a) + Letters(o, a, end))
              && (forall j {:trigger c.plays[j]} :: l <= j < |c.plays| ==> c.plays[j].tile in x.checks[c.plays[j].col])
              && Draw(x.d, r, Tiles(c.plays[..l]) + Tiles(c.plays[l..])).Some?
              && Draw(x.d, r, Tiles(c.plays[..l]) + Tiles(c.plays[l..])).value.blanks == c.blanks
  {
    hide SplitAt, IsOverlay, Covers, PlaysFrom, LegalOn, Accepts, Draw;
    SplitBasics(x, c.plays, l, a, o);
    LegalOnIs(x, r, c, o, start, end);
    LettersSplit(o, start, a, end);
    TilesSplit(c.plays, l);
    if Accepts(x.d, x.d.topEdge, Letters(o, start, end)) {
      LeftChecksHold(x, c.plays, l, a, o, start, end);
    }
  }

  lemma LegalOnIs(x: Row, r: Rack, c: Candidate, o: seq<Option<Tile>>, start: nat, end: nat)
    requires ValidRow(x) && ValidRack(x.d, r) && |o| == |x.squares| && c.plays != []
    requires forall j {:trigger c.plays[j]} :: 0 <= j < |c.plays| ==> c.plays[j].col < |o|
    requires start == RunLeft(o, c.plays[0].col) && end == RunRight(o, c.plays[0].col)
    ensures LegalOn(x, r, c, o) <==>
              && c.plays[|c.plays| - 1].col < end
              && Accepts(x.d, x.d.topEdge, Letters(o, start, end))
              && (forall j {:trigger c.plays[j]} :: 0 <= j < |c.plays| ==> c.plays[j].tile in x.checks[c.plays[j].col])
              && Draw(x.d, r, Tiles(c.plays)).Some? && Draw(x.d, r, Tiles(c.plays)).value.blanks == c.blanks
  {
    hide Accepts, Draw, RunLeft, RunRight;
  }

  lemma SplitBasics(x: Row, p: seq<Play>, l: nat, a: nat, o: seq<Option<Tile>>)
    requires ValidRow(x) && SplitAt(x, p, l, a, o)
    ensures l < |p| && |o| == |x.squares| && p[0].col <= a < RunRight(o, p[0].col) == RunRight(o, a)
    ensures PlaysFrom(x.squares, p, l, a) && forall j {:trigger p[j]} :: 0 <= j < l ==> p[j].col < a
    ensures forall j {:trigger p[j]} :: 0 <= j < |p| ==> p[j].col < |o|
  {
    assert p[0].col <= a by {
      if l > 0 { assert p[0].col < a; }
    }
    RunRightFrom(o, p[0].col, a);
  }

  lemma {:induction false} LeftChecksHold(x: Row, p: seq<Play>, l: nat, a: nat, o: seq<Option<Tile>>, start: nat, end: nat)
    requires ValidRow(x) && SplitAt(x, p, l, a, o) && IsOverlay(x.squares, p, o)
    requires start <= p[0].col && a < end <= |o| && forall i :: start <= i < end ==> o[i].Some?
    requires Accepts(x.d, x.d.topEdge, Letters(o, start, end))
    ensures forall j {:trigger p[j]} :: 0 <= j < l ==> p[j].tile in x.checks[p[j].col]
  {
    forall j {:trigger p[j]} | 0 <= j < l
      ensures p[j].tile in x.checks[p[j].col]
    {
      assert p[0].col <= p[j].col;
      assert o[p[j].col] == Some(p[j].tile);
      AcceptedTilesFit(x.d, x.d.topEdge, Letters(o, start, end), p[j].col - start);
    }
  }

  /** What the anchor cuts in two can be judged in two steps. */
  lemma {:induction false} PartsComplete(x: Row, r: Rack, p: seq<Play>, blanks: seq<Tile>, l: nat, a: nat,
                                         o: seq<Option<Tile>>, start: nat, end: nat)
    requires ValidRow(x) && ValidRack(x.d, r) && l < |p| && a < |o| == |x.squares|
    requires forall j {:trigger p[j]} :: 0 <= j < |p| ==> p[j].col < |x.squares|
    requires start <= a < end == RunRight(o, a) && forall i :: start <= i < a ==> o[i].Some?
    ensures var path := FollowPath(x.d, x.d.topEdge, Letters(o, start, a));
            var drawn := Draw(x.d, r, Tiles(p[..l]));
            && p[|p| - 1].col < end
            && Accepts(x.d, x.d.topEdge, Letters(o, start, a) + Letters(o, a, end))
            && (forall j {:trigger p[j]} :: l <= j < |p| ==> p[j].tile in x.checks[p[j].col])
            && Draw(x.d, r, Tiles(p[..l]) + Tiles(p[l..])).Some?
            && Draw(x.d, r, Tiles(p[..l]) + Tiles(p[l..])).value.blanks == blanks
            <==>
              path.Some? && drawn.Some? && Completes(x, drawn.value, p, l, path.value, false, a, blanks, o)
  {
    AcceptsSplit(x.d, x.d.topEdge, Letters(o, start, a), Letters(o, a, end));
    DrawSplit(x.d, r, Tiles(p[..l]), Tiles(p[l..]));
  }

  lemma {:induction false} LegalCompletes(x: Row, r: Rack, c: Candidate, l: nat, a: nat, o: seq<Option<Tile>>, start: nat)
    requires ValidRow(x) && ValidRack(x.d, r) && SplitAt(x, c.plays, l, a, o) && IsOverlay(x.squares, c.plays, o)
    requires start == RunLeft(o, c.plays[0].col) && start <= a && forall i :: start <= i < a ==> o[i].Some?
    ensures var path := FollowPath(x.d, x.d.topEdge, Letters(o, start, a));
            var drawn := Draw(x.d, r, Tiles(c.plays[..l]));
            LegalOn(x, r, c, o) <==>
              path.Some? && drawn.Some? && Completes(x, drawn.value, c.plays, l, path.value, false, a, c.blanks, o)
  {
    hide *;
    SplitBasics(x, c.plays, l, a, o);
    var end := RunRight(o, c.plays[0].col);
    LegalParts(x, r, c, l, a, o, start, end);
    PartsComplete(x, r, c.plays, c.blanks, l, a, o, start, end);
  }

  /** A placement split at an anchor is legal iff what lies left of the anchor can be spelled and
      drawn, and extendRight from there yields it. */
  lemma {:induction false} LegalSplit(x: Row, r: Rack, c: Candidate, l: nat, a: nat, o: seq<Option<Tile>>)
    requires ValidRow(x) && ValidRack(x.d, r) && SplitAt(x, c.plays, l, a, o) && IsOverlay(x.squares, c.plays, o)
    ensures var start := RunLeft(o, c.plays[0].col);
            var before := Tiles(c.plays[..l]);
            start <= a && (forall i :: start <= i < a ==> o[i].Some?) &&
            var path := FollowPath(x.d, x.d.topEdge, Letters(o, start, a));
            (LegalOn(x, r, c, o) <==>
               path.Some? && Draw(x.d, r, before).Some?
               && c in ExtendRight(x, Draw(x.d, r, before).value, c.plays[..l], path.value, false, a))
  {
    hide SplitAt, IsOverlay, Covers, Completes, LegalOn, Accepts, Draw, FollowPath;
    SplitBasics(x, c.plays, l, a, o);
    var start := RunLeft(o, c.plays[0].col);
    LegalCompletes(x, r, c, l, a, o, start);
    var path := FollowPath(x.d, x.d.topEdge, Letters(o, start, a));
    var drawn := Draw(x.d, r, Tiles(c.plays[..l]));
    if path.Some? && drawn.Some? {
      ExtendExact(x, drawn.value, c.plays, l, path.value, false, a, c.blanks, o);
    }
  }

  /** The plays lie flush left of anchor `a`, within the gap back to the previous anchor. */
  ghost predicate FlushLeft(x: Row, p: seq<Play>, l: nat, prev: int, a: nat) {
    && l <= |p| && l <= a - prev - 1
    && (forall i {:trigger p[i]} :: 0 <= i < l ==> p[i].col == a - l + i)
    && PlaysFrom(x.squares, p, l, a)
  }

  lemma FlushLaid(x: Row, p: seq<Play>, l: nat, prev: int, a: nat)
    requires FlushLeft(x, p, l, prev, a) && -1 <= prev < a
    ensures p[..l] == LaidLeft(Tiles(p[..l]), a)
  {}

  lemma {:induction false} FlushInGap(x: Row, anchors: seq<bool>, prev: int, a: nat, p: seq<Play>, l: nat)
    requires AnchorsOk(x, anchors) && Adjacent(anchors, prev, a) && a > 0 && x.squares[a - 1].None?
    requires FlushLeft(x, p, l, prev, a)
    ensures PlaysFrom(x.squares, p, 0, 0)
    ensures forall i {:trigger p[i]} :: 0 <= i < l ==>
              p[i].col < a && !anchors[p[i].col] && forall t: Tile :: t < MAX_UNIQUE_TILES ==> t in x.checks[p[i].col]
  {
    forall i | 0 <= i < l
      ensures x.squares[p[i].col].None? && !anchors[p[i].col]
    {
      GapEmpty(x, anchors, prev, a, p[i].col);
    }
  }

  /** With the plays flush against the anchor, the overlay starts a word at the first play. */
  lemma {:induction false} FlushFrame(x: Row, anchors: seq<bool>, prev: int, a: nat, p: seq<Play>, l: nat, o: seq<Option<Tile>>)
    requires ValidRow(x) && AnchorsOk(x, anchors) && Adjacent(anchors, prev, a) && a > 0 && x.squares[a - 1].None?
    requires FlushLeft(x, p, l, prev, a) && l < |p| && p[l].col == a && IsOverlay(x.squares, p, o)
    ensures SplitAt(x, p, l, a, o)
    ensures RunLeft(o, p[0].col) == p[0].col == a - l
    ensures forall i :: a - l <= i < a ==> o[i].Some?
    ensures Letters(o, a - l, a) == Tiles(p[..l])
  {
    hide AnchorsOk, Adjacent, Covers;
    AnchorIsEmpty(x, anchors, prev, a);
    FlushInGap(x, anchors, prev, a, p, l);
    FlushFilled(x, p, l, prev, a, o);
    FlushStart(x, anchors, prev, a, p, l, o);
    RunRightAtLeast(o, a - l, a + 1);
  }

  lemma FlushFilled(x: Row, p: seq<Play>, l: nat, prev: int, a: nat, o: seq<Option<Tile>>)
    requires -1 <= prev < a && FlushLeft(x, p, l, prev, a) && l < |p| && p[l].col == a && IsOverlay(x.squares, p, o)
    ensures p[0].col == a - l && a < |o|
    ensures forall i {:trigger o[i]} :: a - l <= i <= a ==> o[i] == Some(p[i - (a - l)].tile)
    ensures Letters(o, a - l, a) == Tiles(p[..l])
  {
    hide PlaysFrom, Covers;
    forall i {:trigger o[i]} | a - l <= i <= a
      ensures o[i] == Some(p[i - (a - l)].tile)
    {
      assert p[i - (a - l)].col == i;
    }
  }

  lemma FlushStart(x: Row, anchors: seq<bool>, prev: int, a: nat, p: seq<Play>, l: nat, o: seq<Option<Tile>>)
    requires ValidRow(x) && AnchorsOk(x, anchors) && Adjacent(anchors, prev, a) && a > 0 && x.squares[a - 1].None?
    requires FlushLeft(x, p, l, prev, a) && IsOverlay(x.squares, p, o)
    ensures RunLeft(o, a - l) == a - l
  {
    if a - l > 0 {
      var c := a - l - 1;
      assert x.squares[c].None? by {
        if c > prev { GapEmpty(x, anchors, prev, a, c); }
      }
      assert !Covers(p, c);
      assert o[c].None?;
    }
  }

  lemma {:induction false} RunRightAtLeast(o: seq<Option<Tile>>, lo: nat, hi: nat)
    requires lo <= hi <= |o| && forall i :: lo <= i < hi ==> o[i].Some?
    ensures RunRight(o, lo) >= hi
  {}

  /** A candidate of leftPart lies flush in the gap and is reached through its left tiles. */
  lemma {:induction false} LeftMoveReaches(x: Row, r: Rack, anchors: seq<bool>, prev: int, a: nat, c: Candidate) returns (l: nat)
    requires ValidRow(x) && ValidRack(x.d, r) && AnchorsOk(x, anchors) && Adjacent(anchors, prev, a)
    requires a > 0 && x.squares[a - 1].None?
    requires c in AnchorMoves(x, r, prev, a)
    ensures FlushLeft(x, c.plays, l, prev, a)
    ensures ReachesAnchor(x, r, c, l, x.d.topEdge, Tiles(c.plays[..l]), a)
  {
    hide ReachesAnchor, LeftPart, PlaysFrom, AnchorsOk, ExtendRight, FollowPath;
    AnchorIsEmpty(x, anchors, prev, a);
    l := LeftShape(x, r, [], x.d.topEdge, a - prev - 1, a, c);
    LaidLeftCols(c, a, l);
    var before := Tiles(c.plays[..l]);
    assert before[..0] == [] && before[0..] == before;
    LeftExact(x, r, c, l, 0, x.d.topEdge, a - prev - 1, a);
  }

  lemma {:induction false} LeftCaseSound(x: Row, r: Rack, anchors: seq<bool>, prev: int, a: nat, c: Candidate)
    requires ValidRow(x) && ValidRack(x.d, r) && AnchorsOk(x, anchors) && Adjacent(anchors, prev, a)
    requires a > 0 && x.squares[a - 1].None?
    requires c in AnchorMoves(x, r, prev, a)
    ensures Legal(x, r, c) && FirstCovered(anchors, c.plays, a)
  {
    hide AnchorMoves, AnchorsOk, Adjacent, ExtendRight, FollowPath, Draw, LegalOn, SplitAt, IsOverlay, Covers, FirstCovered;
    var p := c.plays;
    var l := LeftMoveReaches(x, r, anchors, prev, a, c);
    AnchorIsEmpty(x, anchors, prev, a);
    FlushInGap(x, anchors, prev, a, p, l);
    var o := Overlay(x.squares, p);
    OverlayIs(x.squares, p);
    ReachedPlaysAnchor(x, r, c, l, a, o);
    FlushFrame(x, anchors, prev, a, p, l, o);
    LegalSplit(x, r, c, l, a, o);
    FirstIs(x, anchors, p, l, a);
  }

  lemma AnchorIsEmpty(x: Row, anchors: seq<bool>, prev: int, a: nat)
    requires AnchorsOk(x, anchors) && Adjacent(anchors, prev, a)
    ensures |anchors| == |x.squares| && -1 <= prev < a < |anchors| && anchors[a] && x.squares[a].None?
    ensures prev >= 0 ==> anchors[prev]
  {}

  lemma FirstIs(x: Row, anchors: seq<bool>, p: seq<Play>, l: nat, a: nat)
    requires a < |anchors| && anchors[a] && l < |p| && p[l].col == a && PlaysFrom(x.squares, p, l, a)
    requires forall i {:trigger p[i]} :: 0 <= i < l ==> p[i].col < |anchors| && !anchors[p[i].col]
    ensures FirstCovered(anchors, p, a)
  {}

  lemma {:induction false} ReachedPlaysAnchor(x: Row, r: Rack, c: Candidate, l: nat, a: nat, o: seq<Option<Tile>>)
    requires ValidRow(x) && ValidRack(x.d, r) && l <= |c.plays| && a < |x.squares| && x.squares[a].None?
    requires IsOverlay(x.squares, c.plays, o) && PlaysFrom(x.squares, c.plays, l, a)
    requires forall i {:trigger c.plays[i]} :: 0 <= i < l ==> c.plays[i].col < a
    requires ReachesAnchor(x, r, c, l, x.d.topEdge, Tiles(c.plays[..l]), a)
    ensures l < |c.plays| && c.plays[l].col == a
  {
    var before := Tiles(c.plays[..l]);
    var drawn, path := Draw(x.d, r, before).value, FollowPath(x.d, x.d.topEdge, before).value;
    ExtendExact(x, drawn, c.plays, l, path, false, a, c.blanks, o);
    assert RunRight(o, a) != a;
    PlayedAt(x, c.plays, l, a, o);
  }

  /** An empty square that the overlay fills carries the first play not left of it. */
  lemma PlayedAt(x: Row, p: seq<Play>, l: nat, a: nat, o: seq<Option<Tile>>)
    requires IsOverlay(x.squares, p, o) && a < |o| && o[a].Some? && x.squares[a].None?
    requires l <= |p| && PlaysFrom(x.squares, p, l, a) && forall i {:trigger p[i]} :: 0 <= i < l ==> p[i].col < a
    ensures l < |p| && p[l].col == a && Covers(p, a)
  {
    assert Covers(p, a);
    var j :| 0 <= j < |p| && p[j].col == a;
    assert forall i {:trigger p[i]} :: l <= i < |p| ==> p[l].col <= p[i].col;
  }

  lemma {:induction false} LeftCaseComplete(x: Row, r: Rack, anchors: seq<bool>, prev: int, a: nat, c: Candidate)
    requires ValidRow(x) && ValidRack(x.d, r) && AnchorsOk(x, anchors) && Adjacent(anchors, prev, a)
    requires a > 0 && x.squares[a - 1].None?
    requires Legal(x, r, c) && FirstCovered(anchors, c.plays, a)
    ensures c in AnchorMoves(x, r, prev, a)
  {
    hide IsOverlay, Covers, Legal, LegalOn, Overlay, Draw, FollowPath, SplitAt, FlushLeft, AnchorMoves, AnchorsOk, Adjacent,
         FirstCovered, ExtendRight, PlaysFrom;
    var p := c.plays;
    LegalBasics(x, r, c);
    AnchorIsEmpty(x, anchors, prev, a);
    var o := Overlay(x.squares, p);
    var l := LegalIsFlush(x, r, anchors, prev, a, c, o);
    FlushFrame(x, anchors, prev, a, p, l, o);
    LegalSplit(x, r, c, l, a, o);
    FlushMove(x, r, prev, a, c, l);
  }

  lemma LegalBasics(x: Row, r: Rack, c: Candidate)
    requires ValidRow(x) && ValidRack(x.d, r) && Legal(x, r, c)
    ensures c.plays != [] && PlaysFrom(x.squares, c.plays, 0, 0)
    ensures forall j {:trigger c.plays[j]} :: 0 <= j < |c.plays| ==> c.plays[j].col < |x.squares|
    ensures IsOverlay(x.squares, c.plays, Overlay(x.squares, c.plays)) && LegalOn(x, r, c, Overlay(x.squares, c.plays))
  {
    OverlayIs(x.squares, c.plays);
  }

  lemma {:induction false} FlushMove(x: Row, r: Rack, prev: int, a: nat, c: Candidate, l: nat)
    requires ValidRow(x) && ValidRack(x.d, r) && -1 <= prev < a < |x.squares| && a > 0 && x.squares[a - 1].None?
    requires FlushLeft(x, c.plays, l, prev, a)
    requires ReachesAnchor(x, r, c, l, x.d.topEdge, Tiles(c.plays[..l]), a)
    ensures c in AnchorMoves(x, r, prev, a)
  {
    FlushLaid(x, c.plays, l, prev, a);
    hide ReachesAnchor, LeftPart;
    var before := Tiles(c.plays[..l]);
    assert before[..0] == [] && before[0..] == before;
    LeftExact(x, r, c, l, 0, x.d.topEdge, a - prev - 1, a);
  }

  lemma {:induction false} LegalIsFlush(x: Row, r: Rack, anchors: seq<bool>, prev: int, a: nat, c: Candidate, o: seq<Option<Tile>>)
    returns (l: nat)
    requires ValidRow(x) && ValidRack(x.d, r) && AnchorsOk(x, anchors) && Adjacent(anchors, prev, a)
    requires a > 0 && x.squares[a - 1].None?
    requires c.plays != [] && PlaysFrom(x.squares, c.plays, 0, 0) && IsOverlay(x.squares, c.plays, o)
    requires LegalOn(x, r, c, o) && FirstCovered(anchors, c.plays, a)
    ensures FlushLeft(x, c.plays, l, prev, a) && l < |c.plays| && c.plays[l].col == a
  {
    hide AnchorsOk, LegalOn, IsOverlay, Covers;
    var p := c.plays;
    AnchorIsEmpty(x, anchors, prev, a);
    assert |o| == |x.squares| by { OverlaySize(x, p, o); }
    CoveredInside(x, r, c, o, a);
    if 0 <= prev && p[0].col <= prev {
      AnchorIsEmptyAt(x, anchors, prev);
      FilledEmptyIsCovered(x, p, o, prev);
      assert false;
    }
    forall q | p[0].col <= q < a
      ensures Covers(p, q)
    {
      GapEmpty(x, anchors, prev, a, q);
      FilledEmptyIsCovered(x, p, o, q);
    }
    l := a - p[0].col;
    Flush(x.squares, p, a, l);
    FlushPlaysAnchor(x, p, l, a);
  }

  lemma OverlaySize(x: Row, p: seq<Play>, o: seq<Option<Tile>>)
    requires IsOverlay(x.squares, p, o)
    ensures |o| == |x.squares|
  {}

  lemma AnchorIsEmptyAt(x: Row, anchors: seq<bool>, c: nat)
    requires AnchorsOk(x, anchors) && c < |anchors| && anchors[c]
    ensures |anchors| == |x.squares| && x.squares[c].None?
  {}

  /** A column that a legal placement covers lies in its word, as does everything from its start. */
  lemma CoveredInside(x: Row, r: Rack, c: Candidate, o: seq<Option<Tile>>, a: nat)
    requires ValidRow(x) && ValidRack(x.d, r) && c.plays != [] && PlaysFrom(x.squares, c.plays, 0, 0)
    requires |o| == |x.squares| && LegalOn(x, r, c, o) && Covers(c.plays, a)
    ensures c.plays[0].col <= a < RunRight(o, c.plays[0].col)
    ensures forall q :: c.plays[0].col <= q <= a ==> o[q].Some?
  {
    hide *;
    PlaysInside(x.squares, c.plays);
    LegalReaches(x, r, c, o);
    CoveredBetween(x.squares, c.plays, a);
  }

  lemma PlaysInside(s: seq<Option<Tile>>, p: seq<Play>)
    requires PlaysFrom(s, p, 0, 0)
    ensures forall j {:trigger p[j]} :: 0 <= j < |p| ==> p[j].col < |s|
  {}

  lemma LegalReaches(x: Row, r: Rack, c: Candidate, o: seq<Option<Tile>>)
    requires ValidRow(x) && ValidRack(x.d, r) && c.plays != [] && |o| == |x.squares|
    requires forall j {:trigger c.plays[j]} :: 0 <= j < |c.plays| ==> c.plays[j].col < |o|
    requires LegalOn(x, r, c, o)
    ensures c.plays[|c.plays| - 1].col < RunRight(o, c.plays[0].col)
  {
    hide RunRight, RunLeft, Letters, Accepts, Draw;
  }

  lemma CoveredBetween(s: seq<Option<Tile>>, p: seq<Play>, a: nat)
    requires p != [] && PlaysFrom(s, p, 0, 0) && Covers(p, a)
    ensures p[0].col <= a <= p[|p| - 1].col
  {
    var m :| 0 <= m < |p| && p[m].col == a;
    assert p[0].col <= a && p[m].col <= p[|p| - 1].col;
  }

  lemma FlushPlaysAnchor(x: Row, p: seq<Play>, l: nat, a: nat)
    requires l <= |p| && PlaysFrom(x.squares, p, 0, 0) && Covers(p, a)
    requires forall i {:trigger p[i]} :: 0 <= i < l ==> p[i].col < a
    requires forall i {:trigger p[i]} :: l <= i < |p| ==> a <= p[i].col
    ensures l < |p| && p[l].col == a && PlaysFrom(x.squares, p, l, a)
  {
    var m :| 0 <= m < |p| && p[m].col == a;
    assert l <= m;
    assert p[l].col <= p[m].col;
  }

  lemma FilledEmptyIsCovered(x: Row, p: seq<Play>, o: seq<Option<Tile>>, q: nat)
    requires IsOverlay(x.squares, p, o) && q < |o| && o[q].Some? && x.squares[q].None?
    ensures Covers(p, q)
  {}

  // ----- the case of a filled square (or the board's edge) left of the anchor ----------------

  lemma {:induction false} RunLeftSame(s: seq<Option<Tile>>, o: seq<Option<Tile>>, a: nat)
    requires a <= |s| == |o| && forall i :: 0 <= i < a ==> o[i] == s[i]
    ensures RunLeft(o, a) == RunLeft(s, a)
    ensures Letters(o, RunLeft(s, a), a) == Letters(s, RunLeft(s, a), a)
  {
    if a > 0 && s[a - 1].Some? {
      RunLeftSame(s, o, a - 1);
    }
  }

  lemma OverlayLeftSame(s: seq<Option<Tile>>, p: seq<Play>, a: nat, o: seq<Option<Tile>>)
    requires IsOverlay(s, p, o) && PlaysFrom(s, p, 0, a) && a <= |s|
    ensures |o| == |s| && forall i :: 0 <= i < a ==> o[i] == s[i]
  {
    forall i | 0 <= i < a
      ensures o[i] == s[i]
    {
      assert !Covers(p, i);
    }
  }

  /** Plays that start on the anchor are legal iff extendRight yields them after the tiles on the
      left have been consumed. */
  lemma {:induction false} RightSplit(x: Row, r: Rack, a: nat, c: Candidate, o: seq<Option<Tile>>)
    requires ValidRow(x) && ValidRack(x.d, r) && a < |x.squares| && (a == 0 || x.squares[a - 1].Some?)
    requires c.plays != [] && PlaysFrom(x.squares, c.plays, 0, a) && c.plays[0].col == a && IsOverlay(x.squares, c.plays, o)
    ensures LegalOn(x, r, c, o) <==> c in AnchorMoves(x, r, -1, a)
  {
    hide *;
    OverlayLeftSame(x.squares, c.plays, a, o);
    RunLeftSame(x.squares, o, a);
    SplitAtStart(x, c.plays, a, o);
    LegalSplit(x, r, c, 0, a, o);
    RightMoves(x, r, -1, a);
    assert c.plays[..0] == [] && Tiles([]) == [];
    NothingDrawn(x.d, r);
  }

  lemma SplitAtStart(x: Row, p: seq<Play>, a: nat, o: seq<Option<Tile>>)
    requires ValidRow(x) && p != [] && PlaysFrom(x.squares, p, 0, a) && p[0].col == a && IsOverlay(x.squares, p, o)
    ensures SplitAt(x, p, 0, a, o)
  {
    OverlaySize(x, p, o);
    PlayFills(x.squares, p, o);
    hide IsOverlay, RunRight;
  }

  lemma NothingDrawn(d: Dict, r: Rack)
    requires ValidRack(d, r)
    ensures Draw(d, r, []) == Some(r)
  {}

  /** What an anchor with a filled square to its left, or none, gives. */
  lemma RightMoves(x: Row, r: Rack, prev: int, a: nat)
    requires ValidRow(x) && ValidRack(x.d, r) && -1 <= prev < a < |x.squares| && (a == 0 || x.squares[a - 1].Some?)
    ensures Sane(x.d) && ValidEdge(x.d, x.d.topEdge)
    ensures var path := FollowPath(x.d, x.d.topEdge, Letters(x.squares, RunLeft(x.squares, a), a));
            AnchorMoves(x, r, prev, a) == ExtendRight(x, r, [], if path.None? then None else path.value, false, a)
            && (path.None? ==> forall c :: c !in AnchorMoves(x, r, prev, a) || c.plays == [])
  {
    hide FollowPath, RunLeft, Letters;
  }

  lemma PlayFills(s: seq<Option<Tile>>, p: seq<Play>, o: seq<Option<Tile>>)
    requires IsOverlay(s, p, o) && p != [] && p[0].col < |s|
    ensures RunRight(o, p[0].col) > p[0].col
  {}

  lemma {:induction false} RightCaseSound(x: Row, r: Rack, anchors: seq<bool>, prev: int, a: nat, c: Candidate)
    requires ValidRow(x) && ValidRack(x.d, r) && AnchorsOk(x, anchors) && Adjacent(anchors, prev, a)
    requires a == 0 || x.squares[a - 1].Some?
    requires c in AnchorMoves(x, r, prev, a)
    ensures Legal(x, r, c) && FirstCovered(anchors, c.plays, a)
  {
    hide AnchorsOk, Adjacent, LegalOn, IsOverlay, Covers, FirstCovered, FollowPath, Accepts;
    AnchorIsEmpty(x, anchors, prev, a);
    var path := FollowPath(x.d, x.d.topEdge, Letters(x.squares, RunLeft(x.squares, a), a));
    var e := if path.None? then None else path.value;
    ExtendShape(x, r, [], e, false, a, c);
    assert PlaysFrom(x.squares, c.plays, 0, 0);
    var o := Overlay(x.squares, c.plays);
    OverlayIs(x.squares, c.plays);
    RightPlaysAnchor(x, r, e, a, c, o);
    RightSplit(x, r, a, c, o);
    FirstIs(x, anchors, c.plays, 0, a);
  }

  lemma {:induction false} RightPlaysAnchor(x: Row, r: Rack, e: Option<nat>, a: nat, c: Candidate, o: seq<Option<Tile>>)
    requires ValidRow(x) && ValidRack(x.d, r) && ValidEdge(x.d, e) && a < |x.squares| && x.squares[a].None?
    requires PlaysFrom(x.squares, c.plays, 0, a) && IsOverlay(x.squares, c.plays, o)
    requires c in ExtendRight(x, r, [], e, false, a)
    ensures c.plays != [] && c.plays[0].col == a
  {
    assert c.plays[..0] == [];
    ExtendExact(x, r, c.plays, 0, e, false, a, c.blanks, o);
    assert RunRight(o, a) != a;
    PlayedAt(x, c.plays, 0, a, o);
  }

  lemma {:induction false} RightCaseComplete(x: Row, r: Rack, anchors: seq<bool>, prev: int, a: nat, c: Candidate)
    requires ValidRow(x) && ValidRack(x.d, r) && AnchorsOk(x, anchors) && Adjacent(anchors, prev, a)
    requires a == 0 || x.squares[a - 1].Some?
    requires Legal(x, r, c) && FirstCovered(anchors, c.plays, a)
    ensures c in AnchorMoves(x, r, prev, a)
  {
    hide AnchorsOk, Adjacent, Legal, LegalOn, IsOverlay, Covers, FirstCovered, FollowPath, Accepts, PlaysFrom;
    AnchorIsEmpty(x, anchors, prev, a);
    LegalBasics(x, r, c);
    var o := Overlay(x.squares, c.plays);
    StartsAtAnchor(x, r, anchors, a, c, o);
    RightSplit(x, r, a, c, o);
  }

  lemma StartsAtAnchor(x: Row, r: Rack, anchors: seq<bool>, a: nat, c: Candidate, o: seq<Option<Tile>>)
    requires ValidRow(x) && ValidRack(x.d, r) && AnchorsOk(x, anchors) && a < |anchors|
    requires a == 0 || x.squares[a - 1].Some?
    requires c.plays != [] && PlaysFrom(x.squares, c.plays, 0, 0) && IsOverlay(x.squares, c.plays, o)
    requires LegalOn(x, r, c, o) && FirstCovered(anchors, c.plays, a)
    ensures c.plays[0].col == a && PlaysFrom(x.squares, c.plays, 0, a)
  {
    hide IsOverlay, LegalOn, Covers;
    OverlaySize(x, c.plays, o);
    CoveredInside(x, r, c, o, a);
    if c.plays[0].col < a {
      NotBeforeAnchor(x, r, anchors, a, c, o);
    }
  }

  /** Plays begun before the anchor would cover an earlier one. */
  lemma NotBeforeAnchor(x: Row, r: Rack, anchors: seq<bool>, a: nat, c: Candidate, o: seq<Option<Tile>>)
    requires ValidRow(x) && ValidRack(x.d, r) && AnchorsOk(x, anchors) && a < |anchors|
    requires a == 0 || x.squares[a - 1].Some?
    requires c.plays != [] && PlaysFrom(x.squares, c.plays, 0, 0) && IsOverlay(x.squares, c.plays, o)
    requires LegalOn(x, r, c, o) && FirstCovered(anchors, c.plays, a) && c.plays[0].col < a
    ensures false
  {
    hide IsOverlay, LegalOn, Covers;
    OverlaySize(x, c.plays, o);
    CoveredInside(x, r, c, o, a);
    var q := RunLeft(x.squares, a) - 1;
    assert c.plays[0].col <= q;
    FilledEmptyIsCovered(x, c.plays, o, q);
    assert x.squares[q + 1].Some?;
  }

  // ----- the row ----------------------------------------------------------------------------

  /** findMovesForAnchor yields exactly the legal placements whose first anchor is this one. */
  lemma {:induction false} AnchorExact(x: Row, r: Rack, anchors: seq<bool>, prev: int, a: nat, c: Candidate)
    requires ValidRow(x) && ValidRack(x.d, r) && AnchorsOk(x, anchors) && Adjacent(anchors, prev, a)
    ensures c in AnchorMoves(x, r, prev, a) <==> Legal(x, r, c) && FirstCovered(anchors, c.plays, a)
  {
    hide Legal, FirstCovered, AnchorMoves;
    if a > 0 && x.squares[a - 1].None? {
      if c in AnchorMoves(x, r, prev, a) {
        LeftCaseSound(x, r, anchors, prev, a, c);
      }
      if Legal(x, r, c) && FirstCovered(anchors, c.plays, a) {
        LeftCaseComplete(x, r, anchors, prev, a, c);
      }
    } else {
      if c in AnchorMoves(x, r, prev, a) {
        RightCaseSound(x, r, anchors, prev, a, c);
      }
      if Legal(x, r, c) && FirstCovered(anchors, c.plays, a) {
        RightCaseComplete(x, r, anchors, prev, a, c);
      }
    }
  }

  ghost predicate CoversAnchorFrom(anchors: seq<bool>, p: seq<Play>, col: nat) {
    exists a :: col <= a && FirstCovered(anchors, p, a)
  }

  /** `prev` is the last anchor before column `col`, or -1. */
  ghost predicate LastAnchor(anchors: seq<bool>, prev: int, col: nat) {
    && -1 <= prev < col <= |anchors| && (prev >= 0 ==> anchors[prev])
    && (forall c :: prev < c < col ==> !anchors[c])
  }

  lemma {:induction false} RowExactFrom(x: Row, r: Rack, anchors: seq<bool>, prev: int, col: nat, c: Candidate)
    requires ValidRow(x) && ValidRack(x.d, r) && AnchorsOk(x, anchors) && LastAnchor(anchors, prev, col)
    ensures c in RowMoves(x, r, anchors, prev, col) <==> Legal(x, r, c) && CoversAnchorFrom(anchors, c.plays, col)
    decreases |anchors| - col
  {
    hide Legal, AnchorMoves;
    if col < |anchors| {
      if anchors[col] {
        AnchorExact(x, r, anchors, prev, col, c);
        RowExactFrom(x, r, anchors, col, col + 1, c);
      } else {
        RowExactFrom(x, r, anchors, prev, col + 1, c);
      }
    }
  }

  lemma {:induction false} FirstCoveredExists(anchors: seq<bool>, p: seq<Play>, a: nat)
    requires a < |anchors| && anchors[a] && Covers(p, a)
    ensures CoversAnchorFrom(anchors, p, 0)
  {
    if !FirstCovered(anchors, p, a) {
      var b :| 0 <= b < a && anchors[b] && Covers(p, b);
      FirstCoveredExists(anchors, p, b);
    }
  }

  /** findMovesOneRow yields exactly the legal placements that cover an anchor. */
  lemma {:induction false} RowMovesExact(x: Row, r: Rack, anchors: seq<bool>, c: Candidate)
    requires ValidRow(x) && ValidRack(x.d, r) && AnchorsOk(x, anchors)
    ensures c in RowMoves(x, r, anchors, -1, 0) <==>
              Legal(x, r, c) && exists a :: 0 <= a < |anchors| && anchors[a] && Covers(c.plays, a)
  {
    RowExactFrom(x, r, anchors, -1, 0, c);
    if a :| 0 <= a < |anchors| && anchors[a] && Covers(c.plays, a) {
      FirstCoveredExists(anchors, c.plays, a);
    }
  }
}
