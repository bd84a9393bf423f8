/** From considerMove to the answers of engine_findMove (engine.c:1070-1203): every call of the
    search, in every marking of its blanks, becomes a candidate of the cache, unless it is the
    second finding of a one-tile move; stepping through the cache then answers the legal moves. */
module EngineMoves {
  import opened Wrappers
  import opened Dawg
  import opened RowSearch
  import opened RowExact
  import opened BoardRows
  import opened Engine
  import opened BoardRules
  import opened Blanks
  import opened MoveOrder
  import opened MoveCache

  /** figureMoveScore, of which nothing is assumed but its range. */
  type Scorer = (Call, seq<CellTile>) -> nat

  // ----- the move as bytes ------------------------------------------------------------------

  /** The tiles of a move, none of them marked as a blank. */
  function Faces(p: seq<Play>): (v: seq<CellTile>)
    ensures |v| == |p| && forall i :: 0 <= i < |p| ==> v[i] == p[i].tile % 64
  {
    seq(|p|, i requires 0 <= i < |p| => p[i].tile % 64)
  }

  /** Byte `i` of MoveInfo's `tiles`: coordinates and tiles in turn, zeroed from the last tile on. */
  function TileByte(p: seq<Play>, v: seq<CellTile>, i: nat): nat {
    if i / 2 >= |p| || i / 2 >= |v| then 0 else if i % 2 == 0 then p[i / 2].col else v[i / 2]
  }

  function MoveBytes(k: Call, v: seq<CellTile>): seq<nat> {
    [|k.move.plays|, k.commonCoord, if k.isHorizontal then 1 else 0]
    + seq(2 * MAX_TRAY_TILES, i requires 0 <= i => TileByte(k.move.plays, v, i))
  }

  /** What a marking is saved as. */
  function MoveOf(k: Call, v: seq<CellTile>, score: nat): PossibleMove {
    PossibleMove(score, |k.move.blanks|, MoveBytes(k, v),
                 seq(MAX_ROWS, i requires 0 <= i => if i < |v| && IsBlank(v[i]) then Face(v[i]) else 0))
  }

  /** Of two moves that score alike, the one with fewer blanks comes first; then the one with more
      tiles; then the one in the higher row or column; and then the one across. */
  lemma TiesBroken(a: Call, v: seq<CellTile>, b: Call, w: seq<CellTile>, score: nat)
    requires |a.move.plays| == |v| && |b.move.plays| == |w|
    ensures |a.move.blanks| < |b.move.blanks| ==> Preferred(MoveOf(a, v, score), MoveOf(b, w, score))
    ensures |a.move.blanks| == |b.move.blanks| ==>
              && (|v| > |w| ==> Preferred(MoveOf(a, v, score), MoveOf(b, w, score)))
              && (|v| == |w| && a.commonCoord > b.commonCoord ==> Preferred(MoveOf(a, v, score), MoveOf(b, w, score)))
              && (|v| == |w| && a.commonCoord == b.commonCoord && a.isHorizontal && !b.isHorizontal ==>
                    Preferred(MoveOf(a, v, score), MoveOf(b, w, score)))
  {
    var m, n := MoveBytes(a, v), MoveBytes(b, w);
    assert |m| == |n| == 3 + 2 * MAX_TRAY_TILES && m[0] == |v| && n[0] == |w|;
    assert m[1] == a.commonCoord && n[1] == b.commonCoord;
    if |v| > |w| {
      ByteAbove(m, n, 0);
    } else if |v| == |w| && a.commonCoord > b.commonCoord {
      ByteAbove(m, n, 1);
    } else if |v| == |w| && a.commonCoord == b.commonCoord && a.isHorizontal && !b.isHorizontal {
      ByteAbove(m, n, 2);
    }
  }

  lemma ByteAbove(m: seq<nat>, n: seq<nat>, k: nat)
    requires k < |m| == |n| && m[k] > n[k] && forall i :: 0 <= i < k ==> m[i] == n[i]
    ensures BytesAbove(m, n)
  {
    assert m[..k] == n[..k];
  }

  lemma BytesAt(a: Call, v: seq<CellTile>, i: nat)
    requires i < |a.move.plays| == |v| <= MAX_TRAY_TILES
    ensures var m := MoveBytes(a, v);
            |m| == 3 + 2 * MAX_TRAY_TILES && m[3 + 2 * i] == a.move.plays[i].col && m[3 + (2 * i + 1)] == v[i]
  {}

  lemma BytesAlike(a: Call, v: seq<CellTile>, b: Call, w: seq<CellTile>, i: nat)
    requires i < |a.move.plays| == |v| == |b.move.plays| == |w| <= MAX_TRAY_TILES
    requires a.commonCoord == b.commonCoord && a.isHorizontal == b.isHorizontal
    requires forall j :: 0 <= j < i ==> a.move.plays[j].col == b.move.plays[j].col && v[j] == w[j]
    ensures |MoveBytes(a, v)| == |MoveBytes(b, w)| == 3 + 2 * MAX_TRAY_TILES
    ensures forall j :: 0 <= j < 3 + 2 * i ==> MoveBytes(a, v)[j] == MoveBytes(b, w)[j]
  {
    forall j | 3 <= j < 3 + 2 * i
      ensures MoveBytes(a, v)[j] == MoveBytes(b, w)[j]
    {
      assert MoveBytes(a, v)[j] == TileByte(a.move.plays, v, j - 3) && MoveBytes(b, w)[j] == TileByte(b.move.plays, w, j - 3);
      assert (j - 3) / 2 < i;
    }
  }

  /** Then the first tile in which they differ decides: its square further on, or its face higher. */
  lemma TileTieBroken(a: Call, v: seq<CellTile>, b: Call, w: seq<CellTile>, score: nat, i: nat)
    requires i < |a.move.plays| == |v| == |b.move.plays| == |w| <= MAX_TRAY_TILES && |a.move.blanks| == |b.move.blanks|
    requires a.commonCoord == b.commonCoord && a.isHorizontal == b.isHorizontal
    requires forall j :: 0 <= j < i ==> a.move.plays[j].col == b.move.plays[j].col && v[j] == w[j]
    ensures a.move.plays[i].col > b.move.plays[i].col || (a.move.plays[i].col == b.move.plays[i].col && v[i] > w[i]) ==>
              Preferred(MoveOf(a, v, score), MoveOf(b, w, score))
  {
    var m, n := MoveBytes(a, v), MoveBytes(b, w);
    BytesAlike(a, v, b, w, i);
    BytesAt(a, v, i);
    BytesAt(b, w, i);
    hide MoveBytes;
    if a.move.plays[i].col > b.move.plays[i].col {
      ByteAbove(m, n, 3 + 2 * i);
    } else if a.move.plays[i].col == b.move.plays[i].col && v[i] > w[i] {
      ByteAbove(m, n, 3 + (2 * i + 1));
    }
  }

  // ----- one-tile moves ---------------------------------------------------------------------

  /** countWords: how many of the words along and across a single tile have two letters or more
      and are in the dictionary. */
  function CountWords(d: Dict, g: Grid, h: bool, row: nat, p: Play): nat
    requires WellFormedTop(d) && ValidGrid(g) && p.col < |g| && row < |g|
  {
    var along, across := CrossWord(g, !h, row, p.col, p.tile), CrossWord(g, h, p.col, row, p.tile);
    (if |along| > 1 && Accepts(d, d.topEdge, along) then 1 else 0)
    + (if |across| > 1 && Accepts(d, d.topEdge, across) then 1 else 0)
  }

  /** The vertical pass drops a single tile that makes two words. */
  predicate Dropped(d: Dict, g: Grid, k: Call)
    requires WellFormedTop(d) && ValidGrid(g)
  {
    && !k.isHorizontal && |k.move.plays| == 1 && k.commonCoord < |g| && k.move.plays[0].col < |g|
    && CountWords(d, g, false, k.commonCoord, k.move.plays[0]) > 1
  }

  /** A one-tile call as the other direction finds it. */
  function Twin(k: Call): (t: Call)
    requires |k.move.plays| == 1
    ensures Places(t) == Places(k)
  {
    Call(!k.isHorizontal, k.move.plays[0].col,
         Candidate([Play(k.commonCoord, k.move.plays[0].tile)], k.move.blanks))
  }

  /** The row with that tile put on it. */
  lemma SoloOverlay(s: seq<Option<Tile>>, p: Play)
    ensures PlaysFrom(s, [p], 0, 0) <==> p.col < |s| && s[p.col].None?
    ensures p.col < |s| ==> Overlay(s, [p]) == s[p.col := Some(p.tile)]
  {
    assert [p][0] == p;
    if p.col < |s| {
      assert [p][..0] == [];
      assert Overlay(s, []) == s;
    }
  }

  /** The word along the line of a single tile is the word across it in the other direction. */
  lemma SoloAllowed(d: Dict, g: Grid, h: bool, first: bool, row: nat, r: Rack, p: Play, blanks: seq<Tile>)
    requires WellFormed(d) && ValidGrid(g) && row < |g| && ValidRack(d, r)
    ensures RulesAllow(d, g, h, first, row, r, Candidate([p], blanks)) <==>
              && p.col < |g| && At(g, h, p.col, row).None? && p.tile < MAX_UNIQUE_TILES
              && Accepts(d, d.topEdge, CrossWord(g, !h, row, p.col, p.tile))
              && CrossOk(d, g, h, p.col, row, p.tile)
              && Draw(d, r, [p.tile]).Some? && Draw(d, r, [p.tile]).value.blanks == blanks
              && IsAnchor(g, h, first, p.col, row)
  {
    hide Accepts, CrossOk, Draw, IsAnchor, Overlay, PlaysFrom, RunLeft, RunRight, Letters, CrossWord;
    var s, c := RowSquares(g, h, row), Candidate([p], blanks);
    assert Tiles(c.plays) == [p.tile] && c.plays[0] == p && |c.plays| == 1;
    SoloOverlay(s, p);
    if p.col < |g| {
      SoloWord(g, h, row, p);
    }
  }

  /** The word along the line of a single tile. */
  lemma SoloWord(g: Grid, h: bool, row: nat, p: Play)
    requires ValidGrid(g) && row < |g| && p.col < |g|
    ensures var o := RowSquares(g, h, row)[p.col := Some(p.tile)];
            p.col < RunRight(o, p.col)
            && Letters(o, RunLeft(o, p.col), RunRight(o, p.col)) == CrossWord(g, !h, row, p.col, p.tile)
  {
    hide RunLeft, RunRight, Letters, ValidGrid;
    assert RowSquares(g, h, row) == ColSquares(g, !h, row);
    SoloLetters(RowSquares(g, h, row), p.col, p.tile);
  }

  /** What is dropped is not lost: the horizontal pass finds the same tile on the same square with
      the same blanks, and keeps it. */
  lemma DroppedIsKept(d: Dict, g: Grid, first: bool, r: Rack, k: Call)
    requires WellFormed(d) && ValidGrid(g) && ValidRack(d, r)
    requires CallAllowed(d, g, first, r, k) && Dropped(d, g, k)
    ensures CallAllowed(d, g, first, r, Twin(k)) && !Dropped(d, g, Twin(k))
    ensures Places(Twin(k)) == Places(k) && Twin(k).move.blanks == k.move.blanks
  {
    hide RulesAllow, Accepts, Draw, CrossWord;
    var p := k.move.plays[0];
    assert k.move == Candidate([p], k.move.blanks);
    SoloAllowed(d, g, false, first, k.commonCoord, r, p, k.move.blanks);
    SoloAllowed(d, g, true, first, p.col, r, Play(k.commonCoord, p.tile), k.move.blanks);
  }

  /** Two kept calls that put the same tiles on the same squares are one call, unless the
      dictionary has that tile as a word of one letter. */
  lemma KeptOnce(d: Dict, g: Grid, first: bool, r: Rack, a: Call, b: Call)
    requires WellFormed(d) && ValidGrid(g) && ValidRack(d, r)
    requires CallAllowed(d, g, first, r, a) && !Dropped(d, g, a)
    requires CallAllowed(d, g, first, r, b) && !Dropped(d, g, b)
    requires Places(a) == Places(b)
    ensures a == b || (|a.move.plays| == 1 && Accepts(d, d.topEdge, [a.move.plays[0].tile]))
  {
    if a.isHorizontal == b.isHorizontal {
      SamePlays(d, g, first, r, a, b);
    } else if a.isHorizontal {
      CrossedOnce(d, g, first, r, a, b);
    } else {
      CrossedOnce(d, g, first, r, b, a);
    }
  }

  lemma SamePlays(d: Dict, g: Grid, first: bool, r: Rack, a: Call, b: Call)
    requires WellFormed(d) && ValidGrid(g) && ValidRack(d, r) && a.isHorizontal == b.isHorizontal
    requires CallAllowed(d, g, first, r, a) && CallAllowed(d, g, first, r, b) && Places(a) == Places(b)
    ensures a == b
  {
    hide RulesAllow;
    AllowedPlays(d, g, first, r, a);
    assert |a.move.plays| == |Places(a)| == |b.move.plays|;
    forall i | 0 <= i < |a.move.plays|
      ensures a.move.plays[i] == b.move.plays[i]
    {
      assert Places(a)[i] == Places(b)[i];
    }
    assert Places(a)[0] == Places(b)[0];
    assert a.move.plays == b.move.plays;
    SameBlanks(d, g, first, r, a, b);
  }

  lemma AllowedPlays(d: Dict, g: Grid, first: bool, r: Rack, k: Call)
    requires WellFormed(d) && ValidGrid(g) && ValidRack(d, r) && CallAllowed(d, g, first, r, k)
    ensures k.move.plays != []
    ensures forall i, j :: 0 <= i < j < |k.move.plays| ==> k.move.plays[i].col < k.move.plays[j].col
    ensures forall i {:trigger k.move.plays[i]} :: 0 <= i < |k.move.plays| ==>
              k.move.plays[i].tile < MAX_UNIQUE_TILES && k.move.plays[i].col < |g|
  {}

  lemma CrossedOnce(d: Dict, g: Grid, first: bool, r: Rack, a: Call, b: Call)
    requires WellFormed(d) && ValidGrid(g) && ValidRack(d, r) && a.isHorizontal && !b.isHorizontal
    requires CallAllowed(d, g, first, r, a) && CallAllowed(d, g, first, r, b) && !Dropped(d, g, b)
    requires Places(a) == Places(b)
    ensures |a.move.plays| == 1 && |b.move.plays| == 1 && Accepts(d, d.topEdge, [a.move.plays[0].tile])
    ensures b.move.plays[0].tile == a.move.plays[0].tile
  {
    AllowedPlays(d, g, first, r, a);
    AllowedPlays(d, g, first, r, b);
    hide RulesAllow, Accepts, Draw;
    var p, q := a.move.plays[0], b.move.plays[0];
    assert Places(a)[0] == Places(b)[0];
    if |a.move.plays| > 1 {
      TwoInColumn(a, b);
    }
    assert |Places(b)| == 1;
    assert a.move == Candidate([p], a.move.blanks) && b.move == Candidate([q], b.move.blanks);
    SoloAllowed(d, g, true, first, a.commonCoord, r, p, a.move.blanks);
    SoloAllowed(d, g, false, first, b.commonCoord, r, q, b.move.blanks);
    ShortWord(g, false, q.col, b.commonCoord, q.tile);
    ShortWord(g, true, b.commonCoord, q.col, q.tile);
  }

  /** Two tiles of a horizontal move are not in one column. */
  lemma TwoInColumn(a: Call, b: Call)
    requires a.isHorizontal && !b.isHorizontal && Places(a) == Places(b) && |a.move.plays| > 1
    requires a.move.plays[0].col < a.move.plays[1].col
    ensures false
  {
    assert |Places(a)| == |Places(b)| && Places(a)[0] == Places(b)[0] && Places(a)[1] == Places(b)[1];
  }

  lemma ShortWord(g: Grid, h: bool, col: nat, row: nat, t: Tile)
    requires ValidGrid(g) && col < |g| && row < |g|
    ensures |CrossWord(g, h, col, row, t)| >= 1
    ensures |CrossWord(g, h, col, row, t)| == 1 ==> CrossWord(g, h, col, row, t) == [t]
  {}

  // ----- all candidates ---------------------------------------------------------------------

  /** What one call offers the cache. */
  function CallMoves(d: Dict, g: Grid, k: Call, score: Scorer): seq<PossibleMove>
    requires WellFormedTop(d) && ValidGrid(g)
  {
    var ms := Markings(Faces(k.move.plays), k.move.blanks);
    if Dropped(d, g, k) then [] else Scored(k, ms, score)
  }

  function Scored(k: Call, ms: seq<seq<CellTile>>, score: Scorer): (r: seq<PossibleMove>)
    ensures |r| == |ms| && forall i :: 0 <= i < |ms| ==> r[i] == MoveOf(k, ms[i], score(k, ms[i]))
  {
    seq(|ms|, i requires 0 <= i < |ms| => MoveOf(k, ms[i], score(k, ms[i])))
  }

  function AllMoves(d: Dict, g: Grid, ks: seq<Call>, score: Scorer): seq<PossibleMove>
    requires WellFormedTop(d) && ValidGrid(g)
  {
    if ks == [] then [] else AllMoves(d, g, ks[..|ks| - 1], score) + CallMoves(d, g, ks[|ks| - 1], score)
  }

  /** `v` is a way to mark the blanks of a kept call. */
  ghost predicate Marks(d: Dict, g: Grid, k: Call, v: seq<CellTile>)
    requires WellFormedTop(d) && ValidGrid(g)
  {
    && !Dropped(d, g, k) && Extends(Faces(k.move.plays), v)
    && NewlyMarked(Faces(k.move.plays), v) == multiset(k.move.blanks)
  }

  /** How many tiles of a move are marked as blanks. */
  function BlankCount(v: seq<CellTile>): nat {
    if v == [] then 0 else (if IsBlank(v[0]) then 1 else 0) + BlankCount(v[1..])
  }

  lemma {:induction false} MarkedCount(tiles: seq<CellTile>, v: seq<CellTile>)
    requires |tiles| == |v| && forall i :: 0 <= i < |tiles| ==> !IsBlank(tiles[i])
    ensures |NewlyMarked(tiles, v)| == BlankCount(v)
  {
    if tiles != [] {
      MarkedCount(tiles[1..], v[1..]);
    }
  }

  /** What is saved with a move says how many of its tiles are blanks, and what each stands for. */
  lemma SavedBlanks(d: Dict, g: Grid, k: Call, v: seq<CellTile>, score: nat)
    requires WellFormedTop(d) && ValidGrid(g) && Marks(d, g, k, v)
    ensures MoveOf(k, v, score).nBlanks == BlankCount(v)
    ensures forall i :: 0 <= i < |v| && i < MAX_ROWS ==>
              MoveOf(k, v, score).blankVals[i] == if IsBlank(v[i]) then k.move.plays[i].tile % 64 else 0
  {
    hide Dropped, MoveBytes, NewlyMarked, BlankCount, Marked;
    var faces := Faces(k.move.plays);
    MarkedCount(faces, v);
    assert |multiset(k.move.blanks)| == |k.move.blanks|;
    forall i | 0 <= i < |v|
      ensures IsBlank(v[i]) ==> Face(v[i]) == k.move.plays[i].tile % 64
    {
      assert v[i] == faces[i] || v[i] == Marked(faces[i]);
    }
  }

  lemma CallMovesExact(d: Dict, g: Grid, k: Call, score: Scorer, m: PossibleMove)
    requires WellFormedTop(d) && ValidGrid(g)
    ensures m in CallMoves(d, g, k, score) <==> exists v :: Marks(d, g, k, v) && m == MoveOf(k, v, score(k, v))
  {
    hide Dropped, Markings, MoveOf, NewlyMarked;
    var ms := Markings(Faces(k.move.plays), k.move.blanks);
    forall v
      ensures v in ms <==> Extends(Faces(k.move.plays), v) && NewlyMarked(Faces(k.move.plays), v) == multiset(k.move.blanks)
    {
      MarkingsExact(Faces(k.move.plays), k.move.blanks, v);
    }
    if m in CallMoves(d, g, k, score) {
      var i :| 0 <= i < |ms| && m == Scored(k, ms, score)[i];
      assert ms[i] in ms;
    }
    if v :| Marks(d, g, k, v) && m == MoveOf(k, v, score(k, v)) {
      assert v in ms;
      var i :| 0 <= i < |ms| && ms[i] == v;
      assert Scored(k, ms, score)[i] == m;
    }
  }

  lemma {:induction false} AllMovesExact(d: Dict, g: Grid, ks: seq<Call>, score: Scorer, m: PossibleMove)
    requires WellFormedTop(d) && ValidGrid(g)
    ensures m in AllMoves(d, g, ks, score) <==>
              exists k, v :: k in ks && Marks(d, g, k, v) && m == MoveOf(k, v, score(k, v))
  {
    hide CallMoves, Marks, MoveOf;
    if ks != [] {
      var rest, last := ks[..|ks| - 1], ks[|ks| - 1];
      assert ks == rest + [last];
      AllMovesExact(d, g, rest, score, m);
      CallMovesExact(d, g, last, score, m);
    }
  }

  /** considerMove, considerScoreWordHasBlanks and the building of the candidates, call by call. */
  method ConsiderAll(d: Dict, g: Grid, ks: seq<Call>, score: Scorer) returns (cands: seq<PossibleMove>)
    requires WellFormedTop(d) && ValidGrid(g)
    ensures cands == AllMoves(d, g, ks, score)
  {
    hide Dropped, Markings, MoveOf, AllMoves, WellFormedTop, ValidGrid;
    cands := [];
    MovesMore(d, g, ks, score);
    for n := 0 to |ks|
      invariant cands == AllMoves(d, g, ks[..n], score)
    {
      var k := ks[n];
      var faces := Faces(k.move.plays);
      var tiles := new CellTile[|faces|](i requires 0 <= i < |faces| => faces[i]);
      assert tiles[..] == faces;
      var scorer := new MoveScorer();
      scorer.ConsiderScoreWordHasBlanks(k.move.blanks, |k.move.blanks|, tiles);
      assert k.move.blanks[..|k.move.blanks|] == k.move.blanks;
      if !Dropped(d, g, k) {
        cands := cands + Scored(k, scorer.scored, score);
      }
    }
    assert ks[..|ks|] == ks;
  }

  lemma MovesMore(d: Dict, g: Grid, ks: seq<Call>, score: Scorer)
    requires WellFormedTop(d) && ValidGrid(g)
    ensures AllMoves(d, g, [], score) == []
    ensures forall n {:trigger ks[n]} :: 0 <= n < |ks| ==>
              AllMoves(d, g, ks[..n + 1], score) == AllMoves(d, g, ks[..n], score) + CallMoves(d, g, ks[n], score)
  {
    hide CallMoves;
    forall n {:trigger ks[n]} | 0 <= n < |ks|
      ensures AllMoves(d, g, ks[..n + 1], score) == AllMoves(d, g, ks[..n], score) + CallMoves(d, g, ks[n], score)
    {
      assert ks[..n + 1][..n] == ks[..n];
    }
  }

  // ----- the engine's answers ---------------------------------------------------------------

  /** A legal move with a choice of tiles for its blanks, found once if it is a single tile. */
  ghost predicate Offered(d: Dict, g: Grid, r: Rack, k: Call, v: seq<CellTile>)
    requires WellFormed(d) && ValidGrid(g) && ValidRack(d, r)
  {
    BoardAllows(d, g, g[|g| / 2][|g| / 2].None?, r, k) && Marks(d, g, k, v)
  }

  /** The test by which engine_findMove tells the first move. */
  predicate StarEmpty(g: Grid)
    requires ValidGrid(g)
  {
    g[|g| / 2][|g| / 2].None?
  }

  lemma StarIs(g: Grid)
    requires ValidGrid(g)
    ensures StarEmpty(g) == g[|g| / 2][|g| / 2].None?
  {}

  /** The candidates made from the calls of the whole search. */
  lemma OffersExact(d: Dict, g: Grid, r: Rack, score: Scorer, m: PossibleMove)
    requires WellFormed(d) && ValidGrid(g) && ValidRack(d, r) && (StarEmpty(g) ==> StarRowsClear(g))
    ensures m in AllMoves(d, g, AllCalls(d, g, StarEmpty(g), r), score) <==>
              exists k, v :: Offered(d, g, r, k, v) && m == MoveOf(k, v, score(k, v))
  {
    hide BoardAllows, Marks, MoveOf, AllCalls, AllMoves, StarRowsClear, StarEmpty;
    var ks := AllCalls(d, g, StarEmpty(g), r);
    StarIs(g);
    AllMovesExact(d, g, ks, score, m);
    forall k
      ensures k in ks <==> BoardAllows(d, g, StarEmpty(g), r, k)
    {
      SearchOnBoard(d, g, StarEmpty(g), r, k);
    }
  }

  /** An empty dictionary allows nothing. */
  lemma NothingAllowed(d: Dict, g: Grid, first: bool, r: Rack, k: Call)
    requires WellFormed(d) && ValidGrid(g) && ValidRack(d, r) && d.topEdge.None?
    ensures !BoardAllows(d, g, first, r, k)
  {
    hide Put, Touches, Draw, Across, Down;
  }

  lemma ScoresBelow(d: Dict, g: Grid, r: Rack, score: Scorer, cands: seq<PossibleMove>)
    requires WellFormed(d) && ValidGrid(g) && ValidRack(d, r) && forall k, v :: score(k, v) < TOP_MOVE.score
    requires forall m :: m in cands <==> exists k, v :: Offered(d, g, r, k, v) && m == MoveOf(k, v, score(k, v))
    ensures forall i :: 0 <= i < |cands| ==> cands[i].score < TOP_MOVE.score
  {
    hide Offered;
    forall i | 0 <= i < |cands|
      ensures cands[i].score < TOP_MOVE.score
    {
      assert cands[i] in cands;
    }
  }

  lemma {:induction false} DrawSize(d: Dict, r: Rack, w: seq<Tile>)
    requires ValidRack(d, r) && Draw(d, r, w).Some?
    ensures |w| <= r.nTilesMax
    decreases |w|
  {
    if w != [] {
      DrawSize(d, RackRemove(d, r, w[0]).value, w[1..]);
    }
  }

  lemma BytesTell(a: Call, v: seq<CellTile>, b: Call, w: seq<CellTile>)
    requires |a.move.plays| == |v| <= MAX_TRAY_TILES && |b.move.plays| == |w| <= MAX_TRAY_TILES
    requires MoveBytes(a, v) == MoveBytes(b, w)
    ensures a.isHorizontal == b.isHorizontal && a.commonCoord == b.commonCoord && v == w
    ensures forall i :: 0 <= i < |v| ==> a.move.plays[i].col == b.move.plays[i].col
  {
    var m, n := MoveBytes(a, v), MoveBytes(b, w);
    assert m[0] == n[0] && m[1] == n[1] && m[2] == n[2];
    forall i | 0 <= i < |v|
      ensures a.move.plays[i].col == b.move.plays[i].col && v[i] == w[i]
    {
      assert m[3 + 2 * i] == n[3 + 2 * i] && m[3 + (2 * i + 1)] == n[3 + (2 * i + 1)];
    }
  }

  /** A move saved in the cache tells which placement it is and which of its tiles are blanks. */
  lemma MoveTells(d: Dict, g: Grid, r: Rack, score: Scorer, a: Call, v: seq<CellTile>, b: Call, w: seq<CellTile>)
    requires WellFormed(d) && ValidGrid(g) && ValidRack(d, r) && r.nTilesMax <= MAX_TRAY_TILES
    requires Offered(d, g, r, a, v) && Offered(d, g, r, b, w)
    requires MoveOf(a, v, score(a, v)) == MoveOf(b, w, score(b, w))
    ensures a == b && v == w
  {
    hide Offered, CallAllowed, BoardAllows, MoveBytes, Face;
    OfferedSize(d, g, r, a, v);
    OfferedSize(d, g, r, b, w);
    OfferedParts(d, g, r, a, v);
    OfferedParts(d, g, r, b, w);
    BytesTell(a, v, b, w);
    forall i | 0 <= i < |v|
      ensures a.move.plays[i] == b.move.plays[i]
    {
      assert Face(v[i]) == a.move.plays[i].tile && Face(w[i]) == b.move.plays[i].tile;
    }
    assert a.move.plays == b.move.plays;
    SameBlanks(d, g, StarEmpty(g), r, a, b);
  }

  /** No candidate comes up twice, if no two blanks of a call stand for the same face. */
  lemma {:induction false} AllMovesOnce(d: Dict, g: Grid, r: Rack, ks: seq<Call>, score: Scorer)
    requires WellFormed(d) && ValidGrid(g) && ValidRack(d, r) && r.nTilesMax <= MAX_TRAY_TILES && NoDups(ks)
    requires forall k :: k in ks ==> BoardAllows(d, g, StarEmpty(g), r, k) && NoDups(k.move.blanks)
    ensures NoDups(AllMoves(d, g, ks, score))
  {
    hide BoardAllows, CallMoves, Marks, MoveOf, WellFormed, ValidGrid, ValidRack, StarEmpty;
    if ks != [] {
      var rest, last := ks[..|ks| - 1], ks[|ks| - 1];
      assert WellFormedTop(d) by { TopReady(d); }
      assert ks == rest + [last] && last in ks && last !in rest;
      AllMovesOnce(d, g, r, rest, score);
      CallMovesOnce(d, g, r, last, score);
      forall m | m in AllMoves(d, g, rest, score)
        ensures m !in CallMoves(d, g, last, score)
      {
        if m in CallMoves(d, g, last, score) {
          OtherMove(d, g, r, rest, last, score, m);
        }
      }
      NoDupsConcat(AllMoves(d, g, rest, score), CallMoves(d, g, last, score));
    }
  }

  lemma TopReady(d: Dict)
    requires WellFormed(d)
    ensures WellFormedTop(d)
  {}

  lemma CallMovesOnce(d: Dict, g: Grid, r: Rack, k: Call, score: Scorer)
    requires WellFormed(d) && ValidGrid(g) && ValidRack(d, r) && r.nTilesMax <= MAX_TRAY_TILES
    requires BoardAllows(d, g, StarEmpty(g), r, k) && NoDups(k.move.blanks)
    ensures NoDups(CallMoves(d, g, k, score))
  {
    hide BoardAllows, Markings, MoveBytes, Dropped;
    var ms := Markings(Faces(k.move.plays), k.move.blanks);
    MarkingsOnce(Faces(k.move.plays), k.move.blanks);
    AllowedDraws(d, g, StarEmpty(g), r, k);
    DrawSize(d, r, Tiles(k.move.plays));
    forall i, j | 0 <= i < j < |ms|
      ensures Scored(k, ms, score)[i] != Scored(k, ms, score)[j]
    {
      MarkingSize(k, ms[i]);
      MarkingSize(k, ms[j]);
      if MoveBytes(k, ms[i]) == MoveBytes(k, ms[j]) {
        BytesTell(k, ms[i], k, ms[j]);
      }
    }
  }

  lemma MarkingSize(k: Call, v: seq<CellTile>)
    requires v in Markings(Faces(k.move.plays), k.move.blanks)
    ensures |v| == |k.move.plays|
  {
    MarkingsExact(Faces(k.move.plays), k.move.blanks, v);
  }

  /** A move of one call is not a move of others. */
  lemma OtherMove(d: Dict, g: Grid, r: Rack, rest: seq<Call>, last: Call, score: Scorer, m: PossibleMove)
    requires WellFormed(d) && ValidGrid(g) && ValidRack(d, r) && r.nTilesMax <= MAX_TRAY_TILES
    requires forall k :: k in rest ==> BoardAllows(d, g, StarEmpty(g), r, k)
    requires BoardAllows(d, g, StarEmpty(g), r, last) && last !in rest
    requires m in AllMoves(d, g, rest, score) && m in CallMoves(d, g, last, score)
    ensures false
  {
    hide BoardAllows, AllMoves, CallMoves, Marks, MoveOf;
    AllMovesExact(d, g, rest, score, m);
    CallMovesExact(d, g, last, score, m);
    var k, v :| k in rest && Marks(d, g, k, v) && m == MoveOf(k, v, score(k, v));
    var w :| Marks(d, g, last, w) && m == MoveOf(last, w, score(last, w));
    MoveTells(d, g, r, score, k, v, last, w);
  }

  lemma OfferedSize(d: Dict, g: Grid, r: Rack, k: Call, v: seq<CellTile>)
    requires WellFormed(d) && ValidGrid(g) && ValidRack(d, r) && Offered(d, g, r, k, v)
    ensures |v| == |k.move.plays| <= r.nTilesMax
    ensures forall i :: 0 <= i < |v| ==> Face(v[i]) == k.move.plays[i].tile
  {
    hide *;
    OfferedParts(d, g, r, k, v);
    AllowedDraws(d, g, StarEmpty(g), r, k);
    DrawSize(d, r, Tiles(k.move.plays));
    AllowedPlays(d, g, StarEmpty(g), r, k);
    MarkedFaces(k.move.plays, v);
  }

  lemma OfferedParts(d: Dict, g: Grid, r: Rack, k: Call, v: seq<CellTile>)
    requires WellFormed(d) && ValidGrid(g) && ValidRack(d, r) && Offered(d, g, r, k, v)
    ensures BoardAllows(d, g, StarEmpty(g), r, k) && CallAllowed(d, g, StarEmpty(g), r, k) && Extends(Faces(k.move.plays), v)
  {
    hide CallAllowed, BoardAllows, Extends, Dropped, NewlyMarked;
    BoardExact(d, g, StarEmpty(g), r, k);
  }

  lemma AllowedDraws(d: Dict, g: Grid, first: bool, r: Rack, k: Call)
    requires WellFormed(d) && ValidGrid(g) && ValidRack(d, r) && BoardAllows(d, g, first, r, k)
    ensures Draw(d, r, Tiles(k.move.plays)).Some?
  {
    hide WordsAcross, WordsDown, Touches, Put, Draw;
  }

  lemma MarkedFaces(p: seq<Play>, v: seq<CellTile>)
    requires Extends(Faces(p), v) && forall i {:trigger p[i]} :: 0 <= i < |p| ==> p[i].tile < MAX_UNIQUE_TILES
    ensures |v| == |p| && forall i :: 0 <= i < |v| ==> Face(v[i]) == p[i].tile
  {
    forall i | 0 <= i < |v|
      ensures Face(v[i]) == p[i].tile
    {
      assert Face(Faces(p)[i]) == p[i].tile;
    }
  }

  lemma CandidatesOnce(d: Dict, g: Grid, r: Rack, score: Scorer)
    requires WellFormed(d) && ValidGrid(g) && ValidRack(d, r) && (StarEmpty(g) ==> StarRowsClear(g))
    requires r.nTilesMax <= MAX_TRAY_TILES && forall k :: BoardAllows(d, g, StarEmpty(g), r, k) ==> NoDups(k.move.blanks)
    ensures NoDups(AllMoves(d, g, AllCalls(d, g, StarEmpty(g), r), score))
  {
    hide BoardAllows, AllCalls, AllMoves, StarClear, StarRowsClear, StarEmpty, NoDups;
    var ks := AllCalls(d, g, StarEmpty(g), r);
    StarRowsClearIs(g);
    AllCallsNoDups(d, g, StarEmpty(g), r);
    forall k | k in ks
      ensures BoardAllows(d, g, StarEmpty(g), r, k)
    {
      SearchOnBoard(d, g, StarEmpty(g), r, k);
    }
    AllMovesOnce(d, g, r, ks, score);
  }

  /** engine_findMove called until it starts over, on an unchanged position: the answers are
      exactly the legal moves that score, in every choice for their blanks, best first. */
  method OfferMoves(d: Dict, g: Grid, tray: seq<Tile>, score: Scorer) returns (answers: seq<PossibleMove>)
    requires WellFormed(d) && ValidGrid(g) && (g[|g| / 2][|g| / 2].None? ==> StarRowsClear(g))
    requires forall i :: 0 <= i < |tray| ==> tray[i] <= MAX_UNIQUE_TILES
    requires forall k, v :: score(k, v) < TOP_MOVE.score
    ensures BestFirst(answers)
    ensures forall m :: m in answers <==>
              m.score > 0 && exists k, v :: Offered(d, g, TrayRack(tray), k, v) && m == MoveOf(k, v, score(k, v))
    ensures (forall k :: BoardAllows(d, g, g[|g| / 2][|g| / 2].None?, TrayRack(tray), k) ==> NoDups(k.move.blanks)) ==> NoDups(answers)
  {
    hide BoardAllows, StarEmpty, Marks, MoveOf, CmpMoves, AllCalls, AllMoves, StarClear, StarRowsClear, NoDups, BestFirst;
    StarIs(g);
    ShortNoDups<PossibleMove>([]);
    DescendingIsBestFirst([]);
    if d.topEdge.None? {
      forall k
        ensures !BoardAllows(d, g, StarEmpty(g), TrayRack(tray), k)
      {
        NothingAllowed(d, g, StarEmpty(g), TrayRack(tray), k);
      }
      return [];
    }
    var e := new EngineCtxt(d, g, tray, StarEmpty(g));
    StarRowsClearIs(g);
    e.SearchAll();
    var cands := ConsiderAll(d, g, e.considered, score);
    forall m
      ensures m in cands <==> exists k, v :: Offered(d, g, TrayRack(tray), k, v) && m == MoveOf(k, v, score(k, v))
    {
      OffersExact(d, g, TrayRack(tray), score, m);
    }
    ScoresBelow(d, g, TrayRack(tray), score, cands);
    if forall k :: BoardAllows(d, g, StarEmpty(g), TrayRack(tray), k) ==> NoDups(k.move.blanks) {
      CandidatesOnce(d, g, TrayRack(tray), score);
    }
    var mi := new MoveIterationData();
    answers := mi.StepThrough(cands);
  }
}
