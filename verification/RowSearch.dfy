/** What one row of the move search computes (engine.c:590-1117), as functions: the recursion of
    leftPart and extendRight over a rack value, yielding the calls of considerMove in order. */
module RowSearch {
  import opened Wrappers
  import opened Dawg

  /** A tile put down on column `col` of the row being searched. */
  datatype Play = Play(col: nat, tile: Tile)

  /** `counts` by tile; `blanks` are the faces for which a blank has been taken so far. */
  datatype Rack = Rack(counts: seq<nat>, nTilesMax: nat, blanks: seq<Tile>)

  /** One call of considerMove: the tiles put down and the faces the blanks stand for. */
  datatype Candidate = Candidate(plays: seq<Play>, blanks: seq<Tile>)

  /** The row searched: its squares, the tiles each square's cross-check allows, its anchors. */
  datatype Row = Row(d: Dict, squares: seq<Option<Tile>>, checks: seq<set<Tile>>)

  ghost predicate ValidRow(x: Row) {
    WellFormed(x.d) && |x.checks| == |x.squares|
  }

  predicate ValidRack(d: Dict, r: Rack) {
    |r.counts| == MAX_UNIQUE_TILES + 1 && d.blankTile <= MAX_UNIQUE_TILES
  }

  function Tiles(p: seq<Play>): (t: seq<Tile>)
    ensures |t| == |p|
    ensures forall i :: 0 <= i < |p| ==> t[i] == p[i].tile
  {
    seq(|p|, i requires 0 <= i < |p| => p[i].tile)
  }

  // ----- the rack ---------------------------------------------------------------------------

  /** rack_remove: the tile itself if there is one, else a blank, else nothing.  Callers only ask
      while `nTilesMax` is positive. */
  function RackRemove(d: Dict, r: Rack, t: Tile): (s: Option<Rack>)
    requires ValidRack(d, r)
    ensures s.Some? ==> ValidRack(d, s.value)
  {
    if t > MAX_UNIQUE_TILES || r.nTilesMax == 0 then None
    else if r.counts[t] > 0 then
      Some(Rack(r.counts[t := r.counts[t] - 1], r.nTilesMax - 1, r.blanks))
    else if r.counts[d.blankTile] > 0 then
      Some(Rack(r.counts[d.blankTile := r.counts[d.blankTile] - 1], r.nTilesMax - 1, r.blanks + [t]))
    else None
  }

  /** Draw the tiles of `w` one after another. */
  function Draw(d: Dict, r: Rack, w: seq<Tile>): (s: Option<Rack>)
    requires ValidRack(d, r)
    ensures s.Some? ==> ValidRack(d, s.value)
    decreases |w|
  {
    if w == [] then Some(r)
    else match RackRemove(d, r, w[0])
      case None => None
      case Some(r') => Draw(d, r', w[1..])
  }

  lemma {:induction false} DrawSplit(d: Dict, r: Rack, v: seq<Tile>, w: seq<Tile>)
    requires ValidRack(d, r)
    ensures Draw(d, r, v + w) == if Draw(d, r, v).None? then None else Draw(d, Draw(d, r, v).value, w)
    decreases |v|
  {
    if v == [] {
      assert v + w == w;
    } else {
      assert (v + w)[0] == v[0] && (v + w)[1..] == v[1..] + w;
      if RackRemove(d, r, v[0]).Some? {
        DrawSplit(d, RackRemove(d, r, v[0]).value, v[1..], w);
      }
    }
  }

  // ----- the recursion ----------------------------------------------------------------------

  /** extendRight at column `col`, with `placed` already put down. */
  function ExtendRight(x: Row, r: Rack, placed: seq<Play>, e: Option<nat>, accepting: bool, col: nat): seq<Candidate>
    requires |x.checks| == |x.squares| && Sane(x.d) && ValidEdge(x.d, e) && ValidRack(x.d, r) && col <= |x.squares|
    decreases |x.squares| - col, 1, 0
  {
    var here := if accepting then [Candidate(placed, r.blanks)] else [];
    if col == |x.squares| then here
    else if x.squares[col].None? then
      (if e.Some? && r.nTilesMax > 0 then ExtendSiblings(x, r, placed, e.value, col) else []) + here
    else if e.None? then []
    else match EdgeWithTile(x.d, e.value, x.squares[col].value)
      case None => []
      case Some(k) => ExtendRight(x, r, placed, Follow(x.d, k), x.d.edges[k].accepting, col + 1)
  }

  /** extendRight's loop over the edges from `k` to the end of their run. */
  function ExtendSiblings(x: Row, r: Rack, placed: seq<Play>, k: nat, col: nat): seq<Candidate>
    requires |x.checks| == |x.squares| && Sane(x.d) && k < |x.d.edges| && ValidRack(x.d, r) && col < |x.squares|
    decreases |x.squares| - col, 0, |x.d.edges| - k
  {
    ExtendBranch(x, r, placed, k, col) +
    (if x.d.edges[k].last || k + 1 == |x.d.edges| then [] else ExtendSiblings(x, r, placed, k + 1, col))
  }

  /** What that loop does with edge `k`. */
  function ExtendBranch(x: Row, r: Rack, placed: seq<Play>, k: nat, col: nat): seq<Candidate>
    requires |x.checks| == |x.squares| && Sane(x.d) && k < |x.d.edges| && ValidRack(x.d, r) && col < |x.squares|
    decreases |x.squares| - col, 0, 0
  {
    var t := x.d.edges[k].tile;
    if t in x.checks[col] && RackRemove(x.d, r, t).Some? then
      ExtendRight(x, RackRemove(x.d, r, t).value, placed + [Play(col, t)],
                  Follow(x.d, k), x.d.edges[k].accepting, col + 1)
    else []
  }

  /** Tiles laid so that the last of them is just left of the anchor. */
  function LaidLeft(w: seq<Tile>, anchor: nat): (p: seq<Play>)
    requires |w| <= anchor
    ensures |p| == |w|
    ensures forall i :: 0 <= i < |w| ==> p[i] == Play(anchor - |w| + i, w[i])
  {
    seq(|w|, i requires 0 <= i < |w| => Play(anchor - |w| + i, w[i]))
  }

  /** leftPart with `w` already taken for the squares left of the anchor. */
  function LeftPart(x: Row, r: Rack, w: seq<Tile>, e: Option<nat>, limit: nat, anchor: nat): seq<Candidate>
    requires |x.checks| == |x.squares| && Sane(x.d) && ValidEdge(x.d, e) && ValidRack(x.d, r)
    requires |w| + limit <= anchor < |x.squares|
    decreases limit, 1, 0
  {
    ExtendRight(x, r, LaidLeft(w, anchor), e, false, anchor) +
    (if limit > 0 && e.Some? && r.nTilesMax > 0 then LeftSiblings(x, r, w, e.value, limit, anchor) else [])
  }

  function LeftSiblings(x: Row, r: Rack, w: seq<Tile>, k: nat, limit: nat, anchor: nat): seq<Candidate>
    requires |x.checks| == |x.squares| && Sane(x.d) && k < |x.d.edges| && ValidRack(x.d, r)
    requires limit > 0 && |w| + limit <= anchor < |x.squares|
    decreases limit, 0, |x.d.edges| - k
  {
    LeftBranch(x, r, w, k, limit, anchor) +
    (if x.d.edges[k].last || k + 1 == |x.d.edges| then [] else LeftSiblings(x, r, w, k + 1, limit, anchor))
  }

  function LeftBranch(x: Row, r: Rack, w: seq<Tile>, k: nat, limit: nat, anchor: nat): seq<Candidate>
    requires |x.checks| == |x.squares| && Sane(x.d) && k < |x.d.edges| && ValidRack(x.d, r)
    requires limit > 0 && |w| + limit <= anchor < |x.squares|
    decreases limit, 0, 0
  {
    var t := x.d.edges[k].tile;
    if RackRemove(x.d, r, t).Some? then
      LeftPart(x, RackRemove(x.d, r, t).value, w + [t], Follow(x.d, k), limit - 1, anchor)
    else []
  }

  // ----- walking the row --------------------------------------------------------------------

  /** The end of the filled squares that start at `col`. */
  function RunRight(s: seq<Option<Tile>>, col: nat): (r: nat)
    requires col <= |s|
    ensures col <= r <= |s|
    ensures forall i :: col <= i < r ==> s[i].Some?
    ensures r < |s| ==> s[r].None?
    decreases |s| - col
  {
    if col == |s| || s[col].None? then col else RunRight(s, col + 1)
  }

  /** The start of the filled squares that end just before `col`. */
  function RunLeft(s: seq<Option<Tile>>, col: nat): (l: nat)
    requires col <= |s|
    ensures l <= col
    ensures forall i :: l <= i < col ==> s[i].Some?
    ensures l > 0 ==> s[l - 1].None?
  {
    if col == 0 || s[col - 1].None? then col else RunLeft(s, col - 1)
  }

  /** The letters on squares `lo..hi`, all of them filled. */
  function Letters(s: seq<Option<Tile>>, lo: nat, hi: nat): (w: seq<Tile>)
    requires lo <= hi <= |s| && forall i :: lo <= i < hi ==> s[i].Some?
    ensures |w| == hi - lo
    ensures forall i :: 0 <= i < |w| ==> w[i] == s[lo + i].value
  {
    seq(hi - lo, i requires 0 <= i < hi - lo => s[lo + i].value)
  }

  /** findMovesForAnchor: `prevAnchor` is -1 before the first anchor. */
  function AnchorMoves(x: Row, r: Rack, prevAnchor: int, col: nat): seq<Candidate>
    requires |x.checks| == |x.squares| && Sane(x.d) && ValidEdge(x.d, x.d.topEdge) && ValidRack(x.d, r)
    requires -1 <= prevAnchor < col < |x.squares|
  {
    if col > 0 && x.squares[col - 1].None? then
      LeftPart(x, r, [], x.d.topEdge, col - prevAnchor - 1, col)
    else
      var path := FollowPath(x.d, x.d.topEdge, Letters(x.squares, RunLeft(x.squares, col), col));
      ExtendRight(x, r, [], if path.None? then None else path.value, false, col)
  }

  /** findMovesOneRow from column `col` on. */
  function RowMoves(x: Row, r: Rack, anchors: seq<bool>, prevAnchor: int, col: nat): seq<Candidate>
    requires |x.checks| == |x.squares| == |anchors| && Sane(x.d) && ValidEdge(x.d, x.d.topEdge) && ValidRack(x.d, r)
    requires -1 <= prevAnchor < col <= |x.squares|
    decreases |x.squares| - col
  {
    if col == |x.squares| then []
    else if anchors[col] then AnchorMoves(x, r, prevAnchor, col) + RowMoves(x, r, anchors, col, col + 1)
    else RowMoves(x, r, anchors, prevAnchor, col + 1)
  }
}
