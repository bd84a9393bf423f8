/** The board as the row search sees it: rows in either direction, cross-checks, anchors. */
module BoardRows {
  import opened Wrappers
  import opened Dawg
  import opened RowSearch
  import opened RowExact

  const MAX_ROWS: nat := 16

  /** Faces of the tiles on the board, by row and column. */
  type Grid = seq<seq<Option<Tile>>>

  predicate ValidGrid(g: Grid) {
    0 < |g| <= MAX_ROWS && forall i :: 0 <= i < |g| ==> |g[i]| == |g|
  }

  /** localGetBoardTile: columns and rows change places when the search runs vertically. */
  function At(g: Grid, horizontal: bool, col: nat, row: nat): Option<Tile>
    requires ValidGrid(g) && col < |g| && row < |g|
  {
    if horizontal then g[row][col] else g[col][row]
  }

  function RowSquares(g: Grid, horizontal: bool, row: nat): (s: seq<Option<Tile>>)
    requires ValidGrid(g) && row < |g|
    ensures |s| == |g| && forall c :: 0 <= c < |g| ==> s[c] == At(g, horizontal, c, row)
  {
    seq(|g|, c requires 0 <= c < |g| => At(g, horizontal, c, row))
  }

  function ColSquares(g: Grid, horizontal: bool, col: nat): (s: seq<Option<Tile>>)
    requires ValidGrid(g) && col < |g|
    ensures |s| == |g| && forall r :: 0 <= r < |g| ==> s[r] == At(g, horizontal, col, r)
  {
    seq(|g|, r requires 0 <= r < |g| => At(g, horizontal, col, r))
  }

  /** The square has a tile directly above or below it (in search orientation). */
  predicate HasVerticalNeighbour(g: Grid, horizontal: bool, col: nat, row: nat)
    requires ValidGrid(g) && col < |g| && row < |g|
  {
    (row > 0 && At(g, horizontal, col, row - 1).Some?) || (row + 1 < |g| && At(g, horizontal, col, row + 1).Some?)
  }

  /** The letters above, the tile, and the letters below. */
  function CrossWord(g: Grid, horizontal: bool, col: nat, row: nat, t: Tile): seq<Tile>
    requires ValidGrid(g) && col < |g| && row < |g|
  {
    var s := ColSquares(g, horizontal, col);
    Letters(s, RunLeft(s, row), row) + [t] + Letters(s, row + 1, RunRight(s, row + 1))
  }

  /** A tile may stand on the square as far as the crossing word goes. */
  predicate CrossOk(d: Dict, g: Grid, horizontal: bool, col: nat, row: nat, t: Tile)
    requires WellFormedTop(d) && ValidGrid(g) && col < |g| && row < |g|
  {
    HasVerticalNeighbour(g, horizontal, col, row) ==> Accepts(d, d.topEdge, CrossWord(g, horizontal, col, row, t))
  }

  /** `Accepts` may be asked of the top of the dictionary. */
  predicate WellFormedTop(d: Dict) {
    Sane(d) && ValidEdge(d, d.topEdge)
  }

  /** The tiles an empty square's cross-check admits; none on a filled square. */
  function CrossTiles(d: Dict, g: Grid, horizontal: bool, col: nat, row: nat): set<Tile>
    requires WellFormedTop(d) && ValidGrid(g) && col < |g| && row < |g|
  {
    set t: Tile | 0 <= t < MAX_UNIQUE_TILES && At(g, horizontal, col, row).None? && CrossOk(d, g, horizontal, col, row, t)
  }

  function RowOf(d: Dict, g: Grid, horizontal: bool, row: nat): (x: Row)
    requires WellFormedTop(d) && ValidGrid(g) && row < |g|
    ensures x.d == d && |x.squares| == |x.checks| == |g|
    ensures WellFormed(d) ==> ValidRow(x)
  {
    Row(d, RowSquares(g, horizontal, row),
        seq(|g|, c requires 0 <= c < |g| => CrossTiles(d, g, horizontal, c, row)))
  }

  /** isAnchorSquare.  On the first move only the star square counts. */
  predicate IsAnchor(g: Grid, horizontal: bool, first: bool, col: nat, row: nat)
    requires ValidGrid(g) && col < |g| && row < |g|
  {
    At(g, horizontal, col, row).None? &&
    if first then col == |g| / 2 && row == |g| / 2
    else
      || (col > 0 && At(g, horizontal, col - 1, row).Some?)
      || (col + 1 < |g| && At(g, horizontal, col + 1, row).Some?)
      || HasVerticalNeighbour(g, horizontal, col, row)
  }

  function AnchorRow(g: Grid, horizontal: bool, first: bool, row: nat): (a: seq<bool>)
    requires ValidGrid(g) && row < |g|
    ensures |a| == |g| && forall c :: 0 <= c < |g| ==> a[c] == IsAnchor(g, horizontal, first, c, row)
  {
    seq(|g|, c requires 0 <= c < |g| => IsAnchor(g, horizontal, first, c, row))
  }

  /** The row through the star square and the rows beside it have no tiles. */
  ghost predicate StarClear(g: Grid, horizontal: bool)
    requires ValidGrid(g)
  {
    forall c, r :: 0 <= c < |g| && 0 <= r < |g| && |g| / 2 - 1 <= r <= |g| / 2 + 1 ==> At(g, horizontal, c, r).None?
  }

  /** An empty square that is not an anchor has no vertical neighbour, so any tile may go there:
      this is why leftPart need not look at the cross-checks. */
  lemma AnchorsAreOk(d: Dict, g: Grid, horizontal: bool, first: bool, row: nat)
    requires WellFormed(d) && ValidGrid(g) && row < |g| && (first ==> row == |g| / 2 && StarClear(g, horizontal))
    ensures AnchorsOk(RowOf(d, g, horizontal, row), AnchorRow(g, horizontal, first, row))
  {
    hide CrossOk, StarClear, IsAnchor, HasVerticalNeighbour;
    var x, anchors := RowOf(d, g, horizontal, row), AnchorRow(g, horizontal, first, row);
    forall c | 0 <= c < |anchors| && anchors[c]
      ensures x.squares[c].None?
    {
      NotAnchor(g, horizontal, first, c, row);
    }
    forall c | 0 <= c < |anchors| && !anchors[c] && x.squares[c].None?
      ensures (c > 0 ==> x.squares[c - 1].None?) && (c + 1 < |anchors| ==> x.squares[c + 1].None?)
      ensures forall t: Tile :: t < MAX_UNIQUE_TILES ==> t in x.checks[c]
    {
      NotAnchor(g, horizontal, first, c, row);
      AloneIsOk(d, g, horizontal, c, row);
      assert x.checks[c] == CrossTiles(d, g, horizontal, c, row);
    }
  }

  lemma NotAnchor(g: Grid, horizontal: bool, first: bool, c: nat, row: nat)
    requires ValidGrid(g) && c < |g| && row < |g| && (first ==> row == |g| / 2 && StarClear(g, horizontal))
    ensures IsAnchor(g, horizontal, first, c, row) ==> At(g, horizontal, c, row).None?
    ensures !IsAnchor(g, horizontal, first, c, row) && At(g, horizontal, c, row).None? ==>
              && (c > 0 ==> At(g, horizontal, c - 1, row).None?) && (c + 1 < |g| ==> At(g, horizontal, c + 1, row).None?)
              && !HasVerticalNeighbour(g, horizontal, c, row)
  {}

  lemma AloneIsOk(d: Dict, g: Grid, horizontal: bool, c: nat, row: nat)
    requires WellFormed(d) && ValidGrid(g) && c < |g| && row < |g| && !HasVerticalNeighbour(g, horizontal, c, row)
    ensures forall t: Tile :: CrossOk(d, g, horizontal, c, row, t)
  {}

  /** A placement that follows the rules of the game: one gapless line of tiles drawn from the
      rack onto empty squares, every word it makes (along the line and across it) in the
      dictionary, touching the tiles already there or, on the first move, covering the star. */
  ghost predicate RulesAllow(d: Dict, g: Grid, horizontal: bool, first: bool, row: nat, r: Rack, c: Candidate)
    requires WellFormed(d) && ValidGrid(g) && row < |g| && ValidRack(d, r)
  {
    var s := RowSquares(g, horizontal, row);
    && c.plays != [] && PlaysFrom(s, c.plays, 0, 0)
    && var o := Overlay(s, c.plays);
    && var start, end := RunLeft(o, c.plays[0].col), RunRight(o, c.plays[0].col);
    && c.plays[|c.plays| - 1].col < end
    && Accepts(d, d.topEdge, Letters(o, start, end))
    && (forall j {:trigger c.plays[j]} :: 0 <= j < |c.plays| ==>
          c.plays[j].tile < MAX_UNIQUE_TILES && CrossOk(d, g, horizontal, c.plays[j].col, row, c.plays[j].tile))
    && Draw(d, r, Tiles(c.plays)).Some? && Draw(d, r, Tiles(c.plays)).value.blanks == c.blanks
    && (exists j {:trigger c.plays[j]} :: 0 <= j < |c.plays| && IsAnchor(g, horizontal, first, c.plays[j].col, row))
  }

  lemma {:induction false} RulesAreLegal(d: Dict, g: Grid, horizontal: bool, first: bool, row: nat, r: Rack, c: Candidate)
    requires WellFormed(d) && ValidGrid(g) && row < |g| && ValidRack(d, r)
    ensures var anchors := AnchorRow(g, horizontal, first, row);
            RulesAllow(d, g, horizontal, first, row, r, c) <==>
              Legal(RowOf(d, g, horizontal, row), r, c)
              && exists a :: 0 <= a < |anchors| && anchors[a] && Covers(c.plays, a)
  {
    hide Accepts, Draw, Overlay, IsAnchor, CrossOk, RunLeft, RunRight;
    var x, anchors := RowOf(d, g, horizontal, row), AnchorRow(g, horizontal, first, row);
    if c.plays != [] && PlaysFrom(x.squares, c.plays, 0, 0) {
      CrossChecksAgree(d, g, horizontal, row, c.plays);
      AnchorsAgree(g, horizontal, first, row, c.plays);
    }
  }

  lemma AnchorsAgree(g: Grid, horizontal: bool, first: bool, row: nat, p: seq<Play>)
    requires ValidGrid(g) && row < |g| && forall j {:trigger p[j]} :: 0 <= j < |p| ==> p[j].col < |g|
    ensures var anchors := AnchorRow(g, horizontal, first, row);
            (exists j {:trigger p[j]} :: 0 <= j < |p| && IsAnchor(g, horizontal, first, p[j].col, row)) <==>
              exists a :: 0 <= a < |anchors| && anchors[a] && Covers(p, a)
  {
    hide IsAnchor;
    var anchors := AnchorRow(g, horizontal, first, row);
    if j :| 0 <= j < |p| && IsAnchor(g, horizontal, first, p[j].col, row) {
      assert anchors[p[j].col] && Covers(p, p[j].col);
    }
  }

  lemma CrossChecksAgree(d: Dict, g: Grid, horizontal: bool, row: nat, p: seq<Play>)
    requires WellFormed(d) && ValidGrid(g) && row < |g| && PlaysFrom(RowSquares(g, horizontal, row), p, 0, 0)
    ensures var x := RowOf(d, g, horizontal, row);
            (forall j {:trigger p[j]} :: 0 <= j < |p| ==> p[j].tile in x.checks[p[j].col]) <==>
            (forall j {:trigger p[j]} :: 0 <= j < |p| ==>
               p[j].tile < MAX_UNIQUE_TILES && CrossOk(d, g, horizontal, p[j].col, row, p[j].tile))
  {
    hide CrossOk;
    var x := RowOf(d, g, horizontal, row);
    forall j {:trigger p[j]} | 0 <= j < |p|
      ensures p[j].tile in x.checks[p[j].col] <==>
                p[j].tile < MAX_UNIQUE_TILES && CrossOk(d, g, horizontal, p[j].col, row, p[j].tile)
    {
      assert x.checks[p[j].col] == CrossTiles(d, g, horizontal, p[j].col, row);
    }
  }

  /** The candidates of one row of the search. */
  function RowCandidates(d: Dict, g: Grid, horizontal: bool, first: bool, row: nat, r: Rack): seq<Candidate>
    requires WellFormedTop(d) && ValidGrid(g) && row < |g| && ValidRack(d, r)
  {
    RowMoves(RowOf(d, g, horizontal, row), r, AnchorRow(g, horizontal, first, row), -1, 0)
  }

  /** The search of a row finds exactly the placements the rules allow on it. */
  lemma {:induction false} RowSearchExact(d: Dict, g: Grid, horizontal: bool, first: bool, row: nat, r: Rack, c: Candidate)
    requires WellFormed(d) && ValidGrid(g) && row < |g| && ValidRack(d, r)
    requires first ==> row == |g| / 2 && StarClear(g, horizontal)
    ensures c in RowCandidates(d, g, horizontal, first, row, r) <==> RulesAllow(d, g, horizontal, first, row, r, c)
  {
    hide RulesAllow, Legal;
    AnchorsAreOk(d, g, horizontal, first, row);
    RulesAreLegal(d, g, horizontal, first, row, r, c);
    RowMovesExact(RowOf(d, g, horizontal, row), r, AnchorRow(g, horizontal, first, row), c);
  }
}
