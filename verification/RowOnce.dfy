/** No placement is considered twice, and what the rack admits, said without order. */
module RowOnce {
  import opened Wrappers
  import opened Dawg
  import opened RowSearch
  import opened RowExact

  // ----- no duplicates ----------------------------------------------------------------------

  lemma {:induction false} ExtendOnce(x: Row, r: Rack, placed: seq<Play>, e: Option<nat>, acc: bool, col: nat)
    requires ValidRow(x) && ValidEdge(x.d, e) && ValidRack(x.d, r) && col <= |x.squares|
    ensures NoDups(ExtendRight(x, r, placed, e, acc, col))
    decreases |x.squares| - col, 1, 0
  {
    hide NoDups, ExtendSiblings, EdgeWithTile, RackRemove;
    var here := if acc then [Candidate(placed, r.blanks)] else [];
    assert NoDups(here) by { ShortNoDups(here); }
    ShortNoDups<Candidate>([]);
    if col < |x.squares| && x.squares[col].None? {
      if e.Some? && r.nTilesMax > 0 {
        var more := ExtendSiblings(x, r, placed, e.value, col);
        SiblingsOnce(x, r, placed, e.value, col);
        forall c | c in more
          ensures c !in here
        {
          var j := SiblingsShape(x, r, placed, e.value, col, c);
        }
        NoDupsConcat(more, here);
      } else {
        assert [] + here == here;
      }
    } else if col < |x.squares| && e.Some? && EdgeWithTile(x.d, e.value, x.squares[col].value).Some? {
      var k := EdgeWithTile(x.d, e.value, x.squares[col].value).value;
      ExtendOnce(x, r, placed, Follow(x.d, k), x.d.edges[k].accepting, col + 1);
    }
  }

  lemma {:induction false} SiblingsOnce(x: Row, r: Rack, placed: seq<Play>, k: nat, col: nat)
    requires ValidRow(x) && k < |x.d.edges| && ValidRack(x.d, r) && col < |x.squares| && x.squares[col].None?
    ensures NoDups(ExtendSiblings(x, r, placed, k, col))
    decreases |x.squares| - col, 0, |x.d.edges| - k
  {
    hide NoDups;
    var t := x.d.edges[k].tile;
    var branch := ExtendBranch(x, r, placed, k, col);
    ShortNoDups<Candidate>([]);
    if t in x.checks[col] && RackRemove(x.d, r, t).Some? {
      ExtendOnce(x, RackRemove(x.d, r, t).value, placed + [Play(col, t)], Follow(x.d, k), x.d.edges[k].accepting, col + 1);
    }
    assert NoDups(branch);
    if x.d.edges[k].last || k + 1 == |x.d.edges| {
      assert branch + [] == branch;
    } else {
      var rest := ExtendSiblings(x, r, placed, k + 1, col);
      SiblingsOnce(x, r, placed, k + 1, col);
      forall c | c in branch
        ensures c !in rest
      {
        BranchNotInRest(x, r, placed, k, col, c);
      }
      NoDupsConcat(branch, rest);
    }
  }

  lemma {:induction false} BranchNotInRest(x: Row, r: Rack, placed: seq<Play>, k: nat, col: nat, c: Candidate)
    requires ValidRow(x) && k + 1 < |x.d.edges| && !x.d.edges[k].last && ValidRack(x.d, r) && col < |x.squares| && x.squares[col].None?
    requires c in ExtendBranch(x, r, placed, k, col)
    ensures c !in ExtendSiblings(x, r, placed, k + 1, col)
  {
    if c in ExtendSiblings(x, r, placed, k + 1, col) {
      hide ExtendBranch, ExtendSiblings;
      BranchShape(x, r, placed, k, col, c);
      var j := SiblingsShape(x, r, placed, k + 1, col, c);
      RunSorted(x.d, k, j);
      assert false;
    }
  }

  lemma {:induction false} LeftOnce(x: Row, r: Rack, w: seq<Tile>, e: Option<nat>, limit: nat, anchor: nat)
    requires ValidRow(x) && ValidEdge(x.d, e) && ValidRack(x.d, r) && |w| + limit <= anchor < |x.squares|
    ensures NoDups(LeftPart(x, r, w, e, limit, anchor))
    decreases limit, 1, 0
  {
    hide NoDups, ExtendRight;
    var here := ExtendRight(x, r, LaidLeft(w, anchor), e, false, anchor);
    ExtendOnce(x, r, LaidLeft(w, anchor), e, false, anchor);
    if limit > 0 && e.Some? && r.nTilesMax > 0 {
      var more := LeftSiblings(x, r, w, e.value, limit, anchor);
      LeftSiblingsOnce(x, r, w, e.value, limit, anchor);
      forall c | c in here
        ensures c !in more
      {
        HereNotInLeft(x, r, w, e, limit, anchor, c);
      }
      NoDupsConcat(here, more);
    } else {
      assert here + [] == here;
    }
  }

  lemma {:induction false} HereNotInLeft(x: Row, r: Rack, w: seq<Tile>, e: Option<nat>, limit: nat, anchor: nat, c: Candidate)
    requires ValidRow(x) && ValidEdge(x.d, e) && e.Some? && ValidRack(x.d, r) && limit > 0 && |w| + limit <= anchor < |x.squares|
    requires c in ExtendRight(x, r, LaidLeft(w, anchor), e, false, anchor)
    ensures c !in LeftSiblings(x, r, w, e.value, limit, anchor)
  {
    if c in LeftSiblings(x, r, w, e.value, limit, anchor) {
      hide LeftSiblings, ExtendRight;
      ExtendShape(x, r, LaidLeft(w, anchor), e, false, anchor, c);
      assert c.plays[..|w|] == LaidLeft(w, anchor) && Tiles(c.plays[..|w|]) == w;
      var j, l := LeftSiblingsShape(x, r, w, e.value, limit, anchor, c);
      LeftCountUnique(x, c, anchor, |w|, l);
      assert false;
    }
  }

  lemma {:induction false} LeftSiblingsOnce(x: Row, r: Rack, w: seq<Tile>, k: nat, limit: nat, anchor: nat)
    requires ValidRow(x) && k < |x.d.edges| && ValidRack(x.d, r) && limit > 0 && |w| + limit <= anchor < |x.squares|
    ensures NoDups(LeftSiblings(x, r, w, k, limit, anchor))
    decreases limit, 0, |x.d.edges| - k
  {
    hide NoDups;
    var t := x.d.edges[k].tile;
    var branch := LeftBranch(x, r, w, k, limit, anchor);
    ShortNoDups<Candidate>([]);
    if RackRemove(x.d, r, t).Some? {
      LeftOnce(x, RackRemove(x.d, r, t).value, w + [t], Follow(x.d, k), limit - 1, anchor);
    }
    assert NoDups(branch);
    if x.d.edges[k].last || k + 1 == |x.d.edges| {
      assert branch + [] == branch;
    } else {
      var rest := LeftSiblings(x, r, w, k + 1, limit, anchor);
      LeftSiblingsOnce(x, r, w, k + 1, limit, anchor);
      forall c | c in branch
        ensures c !in rest
      {
        LeftBranchNotInRest(x, r, w, k, limit, anchor, c);
      }
      NoDupsConcat(branch, rest);
    }
  }

  lemma {:induction false} LeftBranchNotInRest(x: Row, r: Rack, w: seq<Tile>, k: nat, limit: nat, anchor: nat, c: Candidate)
    requires ValidRow(x) && k + 1 < |x.d.edges| && !x.d.edges[k].last && ValidRack(x.d, r)
    requires limit > 0 && |w| + limit <= anchor < |x.squares|
    requires c in LeftBranch(x, r, w, k, limit, anchor)
    ensures c !in LeftSiblings(x, r, w, k + 1, limit, anchor)
  {
    hide LeftSiblings, LeftPart, ExtendRight, Draw, FollowPath;
    var t := x.d.edges[k].tile;
    var l := LeftShape(x, RackRemove(x.d, r, t).value, w + [t], Follow(x.d, k), limit - 1, anchor, c);
    assert Tiles(c.plays[..l])[|w|] == (w + [t])[|w|];
    if c in LeftSiblings(x, r, w, k + 1, limit, anchor) {
      var j, l' := LeftSiblingsShape(x, r, w, k + 1, limit, anchor, c);
      RunSorted(x.d, k, j);
      assert false;
    }
  }

  lemma {:induction false} AnchorOnce(x: Row, r: Rack, prev: int, a: nat)
    requires ValidRow(x) && ValidRack(x.d, r) && -1 <= prev < a < |x.squares|
    ensures NoDups(AnchorMoves(x, r, prev, a))
  {
    if a > 0 && x.squares[a - 1].None? {
      LeftOnce(x, r, [], x.d.topEdge, a - prev - 1, a);
    } else {
      var path := FollowPath(x.d, x.d.topEdge, Letters(x.squares, RunLeft(x.squares, a), a));
      ExtendOnce(x, r, [], if path.None? then None else path.value, false, a);
    }
  }

  lemma {:induction false} RowOnceFrom(x: Row, r: Rack, anchors: seq<bool>, prev: int, col: nat)
    requires ValidRow(x) && ValidRack(x.d, r) && AnchorsOk(x, anchors) && LastAnchor(anchors, prev, col)
    ensures NoDups(RowMoves(x, r, anchors, prev, col))
    decreases |anchors| - col
  {
    hide NoDups, AnchorMoves, Legal, Covers;
    ShortNoDups<Candidate>([]);
    if col < |anchors| {
      if anchors[col] {
        RowOnceFrom(x, r, anchors, col, col + 1);
        AnchorOnce(x, r, prev, col);
        forall c | c in AnchorMoves(x, r, prev, col)
          ensures c !in RowMoves(x, r, anchors, col, col + 1)
        {
          AnchorExact(x, r, anchors, prev, col, c);
          RowExactFrom(x, r, anchors, col, col + 1, c);
        }
        NoDupsConcat(AnchorMoves(x, r, prev, col), RowMoves(x, r, anchors, col, col + 1));
      } else {
        RowOnceFrom(x, r, anchors, prev, col + 1);
      }
    }
  }

  /** findMovesOneRow considers no placement twice: two candidates never share their plays. */
  lemma {:induction false} RowMovesOnce(x: Row, r: Rack, anchors: seq<bool>, i: nat, j: nat)
    requires ValidRow(x) && ValidRack(x.d, r) && AnchorsOk(x, anchors)
    requires i < |RowMoves(x, r, anchors, -1, 0)| && j < |RowMoves(x, r, anchors, -1, 0)|
    requires RowMoves(x, r, anchors, -1, 0)[i].plays == RowMoves(x, r, anchors, -1, 0)[j].plays
    ensures i == j
  {
    var moves := RowMoves(x, r, anchors, -1, 0);
    hide RowMoves, Overlay, LegalOn;
    RowMovesExact(x, r, anchors, moves[i]);
    RowMovesExact(x, r, anchors, moves[j]);
    assert moves[i].blanks == moves[j].blanks;
    assert moves[i] == moves[j];
    RowOnceFrom(x, r, anchors, -1, 0);
  }
}
