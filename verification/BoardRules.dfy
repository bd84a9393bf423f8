/** The rules of the game on the squares of the board, by row and column, without a word on how the
    search sees them: the calls of the search are the placements these rules allow. */
module BoardRules {
  import opened Wrappers
  import opened Dawg
  import opened RowSearch
  import opened RowExact
  import opened RackDraw
  import opened BoardRows
  import opened Engine

  /** A row, a column and the tile to be put there. */
  type Place = (nat, nat, Tile)

  /** Row, column and tile of what a call puts down. */
  function Places(k: Call): (s: seq<Place>)
    ensures |s| == |k.move.plays|
    ensures forall i :: 0 <= i < |s| ==>
              var p := k.move.plays[i];
              s[i] == if k.isHorizontal then (k.commonCoord, p.col, p.tile) else (p.col, k.commonCoord, p.tile)
  {
    seq(|k.move.plays|, i requires 0 <= i < |k.move.plays| =>
      var p := k.move.plays[i];
      if k.isHorizontal then (k.commonCoord, p.col, p.tile) else (p.col, k.commonCoord, p.tile))
  }

  // ----- the rules --------------------------------------------------------------------------

  ghost predicate OnBoard(g: Grid, ps: seq<Place>) {
    forall i {:trigger ps[i]} :: 0 <= i < |ps| ==> ps[i].0 < |g| && ps[i].1 < |g|
  }

  /** The board with the tiles put down. */
  ghost function Put(g: Grid, ps: seq<Place>): (b: Grid)
    requires ValidGrid(g) && OnBoard(g, ps)
    ensures ValidGrid(b) && |b| == |g|
  {
    if ps == [] then g
    else
      var p, b := ps[|ps| - 1], Put(g, ps[..|ps| - 1]);
      b[p.0 := b[p.0][p.1 := Some(p.2)]]
  }

  /** `w` is read across from row `r`, column `c`, and goes on in neither direction. */
  ghost predicate Across(b: Grid, r: nat, c: nat, w: seq<Tile>)
    requires ValidGrid(b)
  {
    && r < |b| && c + |w| <= |b|
    && (forall i :: 0 <= i < |w| ==> b[r][c + i] == Some(w[i]))
    && (c > 0 ==> b[r][c - 1].None?) && (c + |w| < |b| ==> b[r][c + |w|].None?)
  }

  /** The same downwards. */
  ghost predicate Down(b: Grid, r: nat, c: nat, w: seq<Tile>)
    requires ValidGrid(b)
  {
    && c < |b| && r + |w| <= |b|
    && (forall i :: 0 <= i < |w| ==> b[r + i][c] == Some(w[i]))
    && (r > 0 ==> b[r - 1][c].None?) && (r + |w| < |b| ==> b[r + |w|][c].None?)
  }

  /** A square above, below, left or right of it has a tile. */
  predicate Touches(g: Grid, r: nat, c: nat)
    requires ValidGrid(g) && r < |g| && c < |g|
  {
    || (r > 0 && g[r - 1][c].Some?) || (r + 1 < |g| && g[r + 1][c].Some?)
    || (c > 0 && g[r][c - 1].Some?) || (c + 1 < |g| && g[r][c + 1].Some?)
  }

  /** The tiles lie in one row, in one word of the dictionary, and all words down through them
      are in the dictionary. */
  ghost predicate WordsAcross(d: Dict, b: Grid, ps: seq<Place>)
    requires WellFormed(d) && ValidGrid(b) && ps != []
  {
    && (forall i, j :: 0 <= i < j < |ps| ==> ps[i].0 == ps[j].0 && ps[i].1 < ps[j].1)
    && (exists c: nat, w :: Across(b, ps[0].0, c, w) && c <= ps[0].1 && ps[|ps| - 1].1 < c + |w| && Accepts(d, d.topEdge, w))
    && (forall i, r: nat, w {:trigger Down(b, r, ps[i].1, w)} ::
          0 <= i < |ps| && Down(b, r, ps[i].1, w) && r <= ps[i].0 < r + |w| && |w| > 1 ==> Accepts(d, d.topEdge, w))
  }

  /** The same for one column and the words across. */
  ghost predicate WordsDown(d: Dict, b: Grid, ps: seq<Place>)
    requires WellFormed(d) && ValidGrid(b) && ps != []
  {
    && (forall i, j :: 0 <= i < j < |ps| ==> ps[i].1 == ps[j].1 && ps[i].0 < ps[j].0)
    && (exists r: nat, w :: Down(b, r, ps[0].1, w) && r <= ps[0].0 && ps[|ps| - 1].0 < r + |w| && Accepts(d, d.topEdge, w))
    && (forall i, c: nat, w {:trigger Across(b, ps[i].0, c, w)} ::
          0 <= i < |ps| && Across(b, ps[i].0, c, w) && c <= ps[i].1 < c + |w| && |w| > 1 ==> Accepts(d, d.topEdge, w))
  }

  /** New tiles from the rack on empty squares, one of them on the star or beside a tile, and no
      word made that is not in the dictionary.  The first move is looked for across only. */
  ghost predicate BoardAllows(d: Dict, g: Grid, first: bool, r: Rack, k: Call)
    requires WellFormed(d) && ValidGrid(g) && ValidRack(d, r)
  {
    var ps := Places(k);
    && ps != [] && OnBoard(g, ps)
    && (forall i {:trigger ps[i]} :: 0 <= i < |ps| ==> g[ps[i].0][ps[i].1].None? && ps[i].2 < MAX_UNIQUE_TILES)
    && (if k.isHorizontal then WordsAcross(d, Put(g, ps), ps) else !first && WordsDown(d, Put(g, ps), ps))
    && (exists i {:trigger ps[i]} :: 0 <= i < |ps| &&
          if first then ps[i].0 == |g| / 2 && ps[i].1 == |g| / 2 else Touches(g, ps[i].0, ps[i].1))
    && Draw(d, r, Tiles(k.move.plays)).Some? && Draw(d, r, Tiles(k.move.plays)).value.blanks == k.move.blanks
  }

  // ----- lines of squares -------------------------------------------------------------------

  /** `w` stands on the line from square `c`, and goes on in neither direction. */
  ghost predicate LineWord(o: seq<Option<Tile>>, c: nat, w: seq<Tile>) {
    && c + |w| <= |o| && (forall i :: 0 <= i < |w| ==> o[c + i] == Some(w[i]))
    && (c > 0 ==> o[c - 1].None?) && (c + |w| < |o| ==> o[c + |w|].None?)
  }

  lemma LineRun(o: seq<Option<Tile>>, p: nat)
    requires p < |o| && o[p].Some?
    ensures p < RunRight(o, p)
    ensures LineWord(o, RunLeft(o, p), Letters(o, RunLeft(o, p), RunRight(o, p)))
  {
    assert RunRight(o, p) > p;
  }

  lemma {:induction false} LeftEnd(o: seq<Option<Tile>>, c: nat, p: nat)
    requires c <= p <= |o| && (forall i :: c <= i < p ==> o[i].Some?) && (c > 0 ==> o[c - 1].None?)
    ensures RunLeft(o, p) == c
  {
    if c < p {
      LeftEnd(o, c, p - 1);
    }
  }

  lemma {:induction false} RightEnd(o: seq<Option<Tile>>, p: nat, e: nat)
    requires p <= e <= |o| && (forall i :: p <= i < e ==> o[i].Some?) && (e < |o| ==> o[e].None?)
    ensures RunRight(o, p) == e
    decreases e - p
  {
    if p < e {
      RightEnd(o, p + 1, e);
    }
  }

  /** The word through a square is the one from its left end to its right end. */
  lemma LineIs(o: seq<Option<Tile>>, p: nat, c: nat, w: seq<Tile>)
    requires LineWord(o, c, w) && c <= p < c + |w|
    ensures p < |o| && o[p].Some? && c == RunLeft(o, p) && c + |w| == RunRight(o, p)
    ensures w == Letters(o, RunLeft(o, p), RunRight(o, p))
  {
    hide RunLeft, RunRight, Letters;
    LineFilled(o, c, w);
    hide LineWord;
    LeftEnd(o, c, p);
    RightEnd(o, p, c + |w|);
  }

  lemma LineFilled(o: seq<Option<Tile>>, c: nat, w: seq<Tile>)
    requires LineWord(o, c, w)
    ensures c + |w| <= |o| && forall i :: c <= i < c + |w| ==> o[i] == Some(w[i - c])
    ensures (c > 0 ==> o[c - 1].None?) && (c + |w| < |o| ==> o[c + |w|].None?)
  {
    forall i | c <= i < c + |w|
      ensures o[i] == Some(w[i - c])
    {
      assert o[c + (i - c)] == Some(w[i - c]);
    }
  }

  lemma AcrossIsLine(b: Grid, r: nat, c: nat, w: seq<Tile>)
    requires ValidGrid(b) && r < |b|
    ensures Across(b, r, c, w) <==> LineWord(RowSquares(b, true, r), c, w)
    ensures Across(b, r, c, w) <==> LineWord(ColSquares(b, false, r), c, w)
  {
    assert RowSquares(b, true, r) == b[r] == ColSquares(b, false, r);
  }

  lemma DownIsLine(b: Grid, r: nat, c: nat, w: seq<Tile>)
    requires ValidGrid(b) && c < |b|
    ensures Down(b, r, c, w) <==> LineWord(RowSquares(b, false, c), r, w)
    ensures Down(b, r, c, w) <==> LineWord(ColSquares(b, true, c), r, w)
  {
    var s := RowSquares(b, false, c);
    assert s == ColSquares(b, true, c) && forall i :: 0 <= i < |b| ==> s[i] == b[i][c];
  }

  // ----- the board with the tiles down, line by line ----------------------------------------

  /** The plays of a call lie on the board, in order. */
  ghost predicate InOrder(g: Grid, k: Call) {
    && k.commonCoord < |g| && (forall j {:trigger k.move.plays[j]} :: 0 <= j < |k.move.plays| ==> k.move.plays[j].col < |g|)
    && (forall i, j :: 0 <= i < j < |k.move.plays| ==> k.move.plays[i].col < k.move.plays[j].col)
  }

  /** A call with its last tile not yet put down. */
  function Shorter(k: Call): (k': Call)
    requires k.move.plays != []
    ensures k'.isHorizontal == k.isHorizontal && k'.commonCoord == k.commonCoord
    ensures k'.move.plays == k.move.plays[..|k.move.plays| - 1]
    ensures Places(k') == Places(k)[..|k.move.plays| - 1]
  {
    k.(move := k.move.(plays := k.move.plays[..|k.move.plays| - 1]))
  }

  lemma PlacesOnBoard(g: Grid, k: Call)
    requires InOrder(g, k)
    ensures OnBoard(g, Places(k)) && (k.move.plays != [] ==> InOrder(g, Shorter(k)) && OnBoard(g, Places(Shorter(k))))
  {}

  /** The board with one more tile, seen from direction `h`. */
  function SetAt(b: Grid, h: bool, col: nat, row: nat, t: Tile): (b': Grid)
    requires ValidGrid(b) && col < |b| && row < |b|
    ensures ValidGrid(b') && |b'| == |b|
  {
    if h then b[row := b[row][col := Some(t)]] else b[col := b[col][row := Some(t)]]
  }

  lemma SetAtIs(b: Grid, h: bool, col: nat, row: nat, t: Tile)
    requires ValidGrid(b) && col < |b| && row < |b|
    ensures forall c: nat, r: nat :: c < |b| && r < |b| ==>
              At(SetAt(b, h, col, row, t), h, c, r) == if c == col && r == row then Some(t) else At(b, h, c, r)
  {}

  /** One more tile, on its line and on the line across. */
  lemma SetAtLines(b: Grid, h: bool, col: nat, row: nat, t: Tile)
    requires ValidGrid(b) && col < |b| && row < |b|
    ensures var b' := SetAt(b, h, col, row, t);
            && RowSquares(b', h, row) == RowSquares(b, h, row)[col := Some(t)]
            && ColSquares(b', h, col) == ColSquares(b, h, col)[row := Some(t)]
            && forall c: nat :: c < |b| && c != col ==> ColSquares(b', h, c) == ColSquares(b, h, c)
  {
    SetAtIs(b, h, col, row, t);
    hide At, SetAt, ValidGrid;
  }

  lemma PutOne(g: Grid, k: Call)
    requires ValidGrid(g) && InOrder(g, k) && k.move.plays != []
    requires OnBoard(g, Places(k)) && OnBoard(g, Places(Shorter(k)))
    ensures var p := k.move.plays[|k.move.plays| - 1];
            Put(g, Places(k)) == SetAt(Put(g, Places(Shorter(k))), k.isHorizontal, p.col, k.commonCoord, p.tile)
  {}

  /** The line of the call, with its tiles. */
  lemma {:induction false} PutLine(g: Grid, k: Call)
    requires ValidGrid(g) && InOrder(g, k) && OnBoard(g, Places(k))
    ensures RowSquares(Put(g, Places(k)), k.isHorizontal, k.commonCoord)
         == Overlay(RowSquares(g, k.isHorizontal, k.commonCoord), k.move.plays)
    decreases |k.move.plays|
  {
    if k.move.plays != [] {
      PlacesOnBoard(g, k);
      PutLine(g, Shorter(k));
      PutOne(g, k);
      hide Put, SetAt, RowSquares, InOrder, ColSquares;
      var p := k.move.plays[|k.move.plays| - 1];
      SetAtLines(Put(g, Places(Shorter(k))), k.isHorizontal, p.col, k.commonCoord, p.tile);
    }
  }

  /** A line across it on which the call puts nothing. */
  lemma {:induction false} PutElsewhere(g: Grid, k: Call, col: nat)
    requires ValidGrid(g) && InOrder(g, k) && OnBoard(g, Places(k)) && col < |g| && !Covers(k.move.plays, col)
    ensures ColSquares(Put(g, Places(k)), k.isHorizontal, col) == ColSquares(g, k.isHorizontal, col)
    decreases |k.move.plays|
  {
    if k.move.plays != [] {
      PlacesOnBoard(g, k);
      PutElsewhere(g, Shorter(k), col);
      PutOne(g, k);
      hide Put, SetAt, RowSquares, InOrder, ColSquares;
      var p := k.move.plays[|k.move.plays| - 1];
      SetAtLines(Put(g, Places(Shorter(k))), k.isHorizontal, p.col, k.commonCoord, p.tile);
    }
  }

  /** A line across it through one of its tiles. */
  lemma {:induction false} PutAcross(g: Grid, k: Call, j: nat)
    requires ValidGrid(g) && InOrder(g, k) && OnBoard(g, Places(k)) && j < |k.move.plays|
    ensures var p, h := k.move.plays[j], k.isHorizontal;
            ColSquares(Put(g, Places(k)), h, p.col) == ColSquares(g, h, p.col)[k.commonCoord := Some(p.tile)]
    decreases |k.move.plays|
  {
    var last, col := k.move.plays[|k.move.plays| - 1], k.move.plays[j].col;
    PlacesOnBoard(g, k);
    if j < |k.move.plays| - 1 {
      PutAcross(g, Shorter(k), j);
    } else {
      PutElsewhere(g, Shorter(k), col);
    }
    PutOne(g, k);
    hide Put, SetAt, RowSquares, ColSquares;
    SetAtLines(Put(g, Places(Shorter(k))), k.isHorizontal, last.col, k.commonCoord, last.tile);
  }

  // ----- words ------------------------------------------------------------------------------

  lemma {:induction false} RunRightSame(s: seq<Option<Tile>>, o: seq<Option<Tile>>, a: nat)
    requires a <= |s| == |o| && forall i :: a <= i < |s| ==> o[i] == s[i]
    ensures RunRight(o, a) == RunRight(s, a)
    decreases |s| - a
  {
    if a < |s| && s[a].Some? {
      RunRightSame(s, o, a + 1);
    }
  }

  /** A single tile joins the filled squares on either side of it. */
  lemma SoloLetters(s: seq<Option<Tile>>, c: nat, t: Tile)
    requires c < |s|
    ensures var o := s[c := Some(t)];
            var lo, hi := RunLeft(s, c), RunRight(s, c + 1);
            RunLeft(o, c) == lo && RunRight(o, c) == hi && c < hi
            && Letters(o, lo, hi) == Letters(s, lo, c) + [t] + Letters(s, c + 1, hi)
  {
    var o := s[c := Some(t)];
    RunLeftSame(s, o, c);
    RunRightSame(s, o, c + 1);
    assert RunRight(o, c) == RunRight(o, c + 1);
    LettersAround(o, RunLeft(s, c), c, RunRight(s, c + 1));
    SameLetters(s, o, c + 1, RunRight(s, c + 1));
  }

  lemma LettersAround(o: seq<Option<Tile>>, lo: nat, c: nat, hi: nat)
    requires lo <= c < hi <= |o| && forall i :: lo <= i < hi ==> o[i].Some?
    ensures Letters(o, lo, hi) == Letters(o, lo, c) + [o[c].value] + Letters(o, c + 1, hi)
  {}

  lemma SameLetters(s: seq<Option<Tile>>, o: seq<Option<Tile>>, lo: nat, hi: nat)
    requires lo <= hi <= |s| == |o| && forall i :: lo <= i < hi ==> o[i] == s[i] && s[i].Some?
    ensures Letters(o, lo, hi) == Letters(s, lo, hi)
  {}

  /** The words of a call, on lines: `b` is the board with its tiles. */
  ghost predicate WordsOnLines(d: Dict, b: Grid, h: bool, row: nat, p: seq<Play>)
    requires WellFormed(d) && ValidGrid(b) && row < |b| && p != []
    requires forall j {:trigger p[j]} :: 0 <= j < |p| ==> p[j].col < |b|
  {
    && MainWord(d, RowSquares(b, h, row), p[0].col, p[|p| - 1].col)
    && (forall j {:trigger p[j]} :: 0 <= j < |p| ==> CrossWords(d, ColSquares(b, h, p[j].col), row))
  }

  /** One word of the dictionary spans the squares from `from` to `to`. */
  ghost predicate MainWord(d: Dict, o: seq<Option<Tile>>, from: nat, to: nat)
    requires WellFormed(d)
  {
    exists c: nat, w :: LineWord(o, c, w) && c <= from && to < c + |w| && Accepts(d, d.topEdge, w)
  }

  /** The word through square `row`, if there is one of more than one letter, is in the dictionary. */
  ghost predicate CrossWords(d: Dict, o: seq<Option<Tile>>, row: nat)
    requires WellFormed(d)
  {
    forall r: nat, w :: LineWord(o, r, w) && r <= row < r + |w| && |w| > 1 ==> Accepts(d, d.topEdge, w)
  }

  lemma MainWordIs(d: Dict, o: seq<Option<Tile>>, from: nat, to: nat)
    requires WellFormed(d) && from <= to < |o| && o[from].Some?
    ensures MainWord(d, o, from, to) <==>
              to < RunRight(o, from) && Accepts(d, d.topEdge, Letters(o, RunLeft(o, from), RunRight(o, from)))
  {
    hide Accepts, LineWord, RunLeft, RunRight, Letters;
    LineRun(o, from);
    forall c: nat, w | LineWord(o, c, w) && c <= from && to < c + |w|
      ensures to < RunRight(o, from) && w == Letters(o, RunLeft(o, from), RunRight(o, from))
    {
      LineIs(o, from, c, w);
    }
  }

  lemma CrossWordsIs(d: Dict, g: Grid, h: bool, col: nat, row: nat, t: Tile)
    requires WellFormed(d) && ValidGrid(g) && col < |g| && row < |g|
    ensures CrossWords(d, ColSquares(g, h, col)[row := Some(t)], row) <==> CrossOk(d, g, h, col, row, t)
  {
    hide Accepts, LineWord, RunLeft, RunRight, Letters, HasVerticalNeighbour;
    var s := ColSquares(g, h, col);
    var o := s[row := Some(t)];
    SoloLetters(s, row, t);
    LineRun(o, row);
    LongCross(g, h, col, row, t);
    forall r: nat, w | LineWord(o, r, w) && r <= row < r + |w|
      ensures w == CrossWord(g, h, col, row, t)
    {
      LineIs(o, row, r, w);
    }
  }

  /** The word across has more than one letter if there is a neighbour. */
  lemma LongCross(g: Grid, h: bool, col: nat, row: nat, t: Tile)
    requires ValidGrid(g) && col < |g| && row < |g|
    ensures |CrossWord(g, h, col, row, t)| > 1 <==> HasVerticalNeighbour(g, h, col, row)
  {
    var s := ColSquares(g, h, col);
    assert RunLeft(s, row) == row <==> row == 0 || s[row - 1].None?;
    assert RunRight(s, row + 1) == row + 1 <==> row + 1 == |s| || s[row + 1].None?;
  }

  // ----- the two ways to say the rules ------------------------------------------------------

  /** The plays lie on empty squares in order, said of the line. */
  ghost predicate OnLine(g: Grid, k: Call)
    requires ValidGrid(g)
  {
    k.commonCoord < |g| && PlaysFrom(RowSquares(g, k.isHorizontal, k.commonCoord), k.move.plays, 0, 0)
  }

  /** The same of the places. */
  ghost predicate OnSquares(g: Grid, k: Call)
    requires ValidGrid(g)
  {
    var ps := Places(k);
    && OnBoard(g, ps) && (forall i {:trigger ps[i]} :: 0 <= i < |ps| ==> g[ps[i].0][ps[i].1].None?)
    && forall i, j :: 0 <= i < j < |ps| ==>
         if k.isHorizontal then ps[i].0 == ps[j].0 && ps[i].1 < ps[j].1 else ps[i].1 == ps[j].1 && ps[i].0 < ps[j].0
  }

  lemma OnLineIs(g: Grid, k: Call)
    requires ValidGrid(g) && k.move.plays != []
    ensures OnLine(g, k) <==> OnSquares(g, k)
    ensures OnLine(g, k) ==> InOrder(g, k)
  {
    var ps, p := Places(k), k.move.plays;
    if OnSquares(g, k) {
      assert ps[0].0 < |g| && ps[0].1 < |g|;
      forall j {:trigger p[j]} | 0 <= j < |p|
        ensures p[j].col < |g| && At(g, k.isHorizontal, p[j].col, k.commonCoord).None?
      {
        assert g[ps[j].0][ps[j].1].None?;
      }
      forall i, j | 0 <= i < j < |p|
        ensures p[i].col < p[j].col
      {
        assert if k.isHorizontal then ps[i].1 < ps[j].1 else ps[i].0 < ps[j].0;
      }
    }
  }

  /** What RulesAllow says of the words. */
  ghost predicate WordsOfLine(d: Dict, g: Grid, k: Call)
    requires WellFormed(d) && ValidGrid(g) && InOrder(g, k) && k.move.plays != []
  {
    var p, h, row := k.move.plays, k.isHorizontal, k.commonCoord;
    var o := Overlay(RowSquares(g, h, row), p);
    && p[|p| - 1].col < RunRight(o, p[0].col)
    && Accepts(d, d.topEdge, Letters(o, RunLeft(o, p[0].col), RunRight(o, p[0].col)))
    && (forall j {:trigger p[j]} :: 0 <= j < |p| ==> CrossOk(d, g, h, p[j].col, row, p[j].tile))
  }

  lemma FirstFilled(g: Grid, k: Call)
    requires ValidGrid(g) && k.move.plays != [] && OnLine(g, k) && InOrder(g, k)
    ensures var p := k.move.plays;
            var o := Overlay(RowSquares(g, k.isHorizontal, k.commonCoord), p);
            p[0].col <= p[|p| - 1].col < |o| == |g| && o[p[0].col].Some?
  {
    hide Overlay;
    var p := k.move.plays;
    OverlayIs(RowSquares(g, k.isHorizontal, k.commonCoord), p);
    assert p[0].col <= p[|p| - 1].col;
  }

  lemma LinesExact(d: Dict, g: Grid, k: Call)
    requires WellFormed(d) && ValidGrid(g) && k.move.plays != [] && OnLine(g, k) && InOrder(g, k) && OnBoard(g, Places(k))
    ensures WordsOnLines(d, Put(g, Places(k)), k.isHorizontal, k.commonCoord, k.move.plays) <==> WordsOfLine(d, g, k)
  {
    hide Put, Accepts, RunLeft, RunRight, Letters, CrossOk, LineWord, MainWord, CrossWords, ColSquares;
    var p, h, row, b := k.move.plays, k.isHorizontal, k.commonCoord, Put(g, Places(k));
    PutLine(g, k);
    FirstFilled(g, k);
    hide Overlay, RowSquares, OnLine, PlaysFrom;
    MainWordIs(d, RowSquares(b, h, row), p[0].col, p[|p| - 1].col);
    forall j {:trigger p[j]} | 0 <= j < |p|
      ensures CrossWords(d, ColSquares(b, h, p[j].col), row) <==> CrossOk(d, g, h, p[j].col, row, p[j].tile)
    {
      PutAcross(g, k, j);
      CrossWordsIs(d, g, h, p[j].col, row, p[j].tile);
    }
  }

  /** The words across and down are those along the line of the call and across it. */
  lemma WordsAcrossIs(d: Dict, b: Grid, k: Call)
    requires WellFormed(d) && ValidGrid(b) && InOrder(b, k) && k.move.plays != [] && k.isHorizontal
    ensures WordsAcross(d, b, Places(k)) <==> WordsOnLines(d, b, true, k.commonCoord, k.move.plays)
  {
    hide Across, Down, LineWord, Accepts, RowSquares, ColSquares;
    var p, ps, row := k.move.plays, Places(k), k.commonCoord;
    forall c: nat, w
      ensures Across(b, row, c, w) <==> LineWord(RowSquares(b, true, row), c, w)
    {
      AcrossIsLine(b, row, c, w);
    }
    forall j, r: nat, w {:trigger Down(b, r, ps[j].1, w)} {:trigger LineWord(ColSquares(b, true, p[j].col), r, w)} | 0 <= j < |p|
      ensures Down(b, r, ps[j].1, w) <==> LineWord(ColSquares(b, true, p[j].col), r, w)
    {
      DownIsLine(b, r, p[j].col, w);
    }
  }

  lemma WordsDownIs(d: Dict, b: Grid, k: Call)
    requires WellFormed(d) && ValidGrid(b) && InOrder(b, k) && k.move.plays != [] && !k.isHorizontal
    ensures WordsDown(d, b, Places(k)) <==> WordsOnLines(d, b, false, k.commonCoord, k.move.plays)
  {
    hide Across, Down, LineWord, Accepts, RowSquares, ColSquares;
    var p, ps, col := k.move.plays, Places(k), k.commonCoord;
    forall r: nat, w
      ensures Down(b, r, col, w) <==> LineWord(RowSquares(b, false, col), r, w)
    {
      DownIsLine(b, r, col, w);
    }
    forall j, c: nat, w {:trigger Across(b, ps[j].0, c, w)} {:trigger LineWord(ColSquares(b, false, p[j].col), c, w)} | 0 <= j < |p|
      ensures Across(b, ps[j].0, c, w) <==> LineWord(ColSquares(b, false, p[j].col), c, w)
    {
      AcrossIsLine(b, p[j].col, c, w);
    }
  }

  /** An empty square of the line is an anchor if it is the star or has a neighbour. */
  lemma AnchorIs(g: Grid, first: bool, k: Call, j: nat)
    requires ValidGrid(g) && OnLine(g, k) && j < |k.move.plays| && OnBoard(g, Places(k))
    ensures k.move.plays[j].col < |g|
    ensures IsAnchor(g, k.isHorizontal, first, k.move.plays[j].col, k.commonCoord) <==>
              var ps := Places(k);
              if first then ps[j].0 == |g| / 2 && ps[j].1 == |g| / 2 else Touches(g, ps[j].0, ps[j].1)
  {
    assert Places(k)[j] == Places(k)[j];
  }

  lemma AnchorsAre(g: Grid, first: bool, k: Call)
    requires ValidGrid(g) && OnLine(g, k) && OnBoard(g, Places(k))
    ensures var p, ps := k.move.plays, Places(k);
            (exists j {:trigger p[j]} :: 0 <= j < |p| && IsAnchor(g, k.isHorizontal, first, p[j].col, k.commonCoord)) <==>
            (exists j {:trigger ps[j]} :: 0 <= j < |ps| &&
               if first then ps[j].0 == |g| / 2 && ps[j].1 == |g| / 2 else Touches(g, ps[j].0, ps[j].1))
  {
    hide IsAnchor, Touches, RowSquares;
    var p, ps := k.move.plays, Places(k);
    forall j {:trigger p[j]} {:trigger ps[j]} | 0 <= j < |p|
      ensures IsAnchor(g, k.isHorizontal, first, p[j].col, k.commonCoord) <==>
                if first then ps[j].0 == |g| / 2 && ps[j].1 == |g| / 2 else Touches(g, ps[j].0, ps[j].1)
    {
      AnchorIs(g, first, k, j);
    }
  }

  /** What RulesAllow says, part by part. */
  lemma RulesParts(d: Dict, g: Grid, first: bool, r: Rack, k: Call)
    requires WellFormed(d) && ValidGrid(g) && ValidRack(d, r) && k.commonCoord < |g|
    requires k.move.plays != [] && OnLine(g, k) && InOrder(g, k)
    ensures RulesAllow(d, g, k.isHorizontal, first, k.commonCoord, r, k.move) <==>
              && WordsOfLine(d, g, k)
              && (forall j {:trigger k.move.plays[j]} :: 0 <= j < |k.move.plays| ==> k.move.plays[j].tile < MAX_UNIQUE_TILES)
              && (exists j {:trigger k.move.plays[j]} :: 0 <= j < |k.move.plays| &&
                    IsAnchor(g, k.isHorizontal, first, k.move.plays[j].col, k.commonCoord))
              && Draw(d, r, Tiles(k.move.plays)).Some? && Draw(d, r, Tiles(k.move.plays)).value.blanks == k.move.blanks
  {
    hide Accepts, RunLeft, RunRight, Letters, CrossOk, IsAnchor, Draw, Overlay;
  }

  /** What BoardAllows says, part by part. */
  lemma BoardParts(d: Dict, g: Grid, first: bool, r: Rack, k: Call)
    requires WellFormed(d) && ValidGrid(g) && ValidRack(d, r) && k.move.plays != [] && OnSquares(g, k) && InOrder(g, k)
    ensures BoardAllows(d, g, first, r, k) <==>
              var p, ps := k.move.plays, Places(k);
              && WordsOnLines(d, Put(g, ps), k.isHorizontal, k.commonCoord, p) && (first ==> k.isHorizontal)
              && (forall j {:trigger p[j]} :: 0 <= j < |p| ==> p[j].tile < MAX_UNIQUE_TILES)
              && (exists j {:trigger ps[j]} :: 0 <= j < |ps| &&
                    if first then ps[j].0 == |g| / 2 && ps[j].1 == |g| / 2 else Touches(g, ps[j].0, ps[j].1))
              && Draw(d, r, Tiles(p)).Some? && Draw(d, r, Tiles(p)).value.blanks == k.move.blanks
  {
    hide WordsAcross, WordsDown, Touches, Draw, WordsOnLines, Put;
    var p, ps := k.move.plays, Places(k);
    if k.isHorizontal {
      WordsAcrossIs(d, Put(g, ps), k);
    } else {
      WordsDownIs(d, Put(g, ps), k);
    }
    forall j {:trigger p[j]} {:trigger ps[j]} | 0 <= j < |p|
      ensures p[j].tile == ps[j].2
    {}
  }

  lemma AllowedOnLine(d: Dict, g: Grid, first: bool, r: Rack, k: Call)
    requires WellFormed(d) && ValidGrid(g) && ValidRack(d, r)
    ensures CallAllowed(d, g, first, r, k) ==> k.move.plays != [] && OnLine(g, k)
  {
    hide Accepts, RunLeft, RunRight, Letters, CrossOk, IsAnchor, Draw, Overlay;
  }

  lemma AllowedOnSquares(d: Dict, g: Grid, first: bool, r: Rack, k: Call)
    requires WellFormed(d) && ValidGrid(g) && ValidRack(d, r)
    ensures BoardAllows(d, g, first, r, k) ==> k.move.plays != [] && OnSquares(g, k)
  {
    hide Accepts, Across, Down, Touches, Draw, Put;
  }

  /** A call is allowed if and only if the rules said on the squares of the board allow it. */
  lemma BoardExact(d: Dict, g: Grid, first: bool, r: Rack, k: Call)
    requires WellFormed(d) && ValidGrid(g) && ValidRack(d, r)
    ensures CallAllowed(d, g, first, r, k) <==> BoardAllows(d, g, first, r, k)
  {
    AllowedOnLine(d, g, first, r, k);
    AllowedOnSquares(d, g, first, r, k);
    if k.move.plays != [] {
      OnLineIs(g, k);
      if OnLine(g, k) {
        AnchorsAre(g, first, k);
        RulesParts(d, g, first, r, k);
        LinesExact(d, g, k);
        BoardParts(d, g, first, r, k);
        hide RulesAllow, BoardAllows, Touches, IsAnchor, WordsOfLine, WordsOnLines, Put, Draw, InOrder, WellFormed, RowSquares;
      }
    }
  }

  /** The star row and the rows beside it have no tiles. */
  ghost predicate StarRowsClear(g: Grid)
    requires ValidGrid(g)
  {
    forall r, c :: 0 <= r < |g| && 0 <= c < |g| && |g| / 2 - 1 <= r <= |g| / 2 + 1 ==> g[r][c].None?
  }

  lemma StarRowsClearIs(g: Grid)
    requires ValidGrid(g)
    ensures StarRowsClear(g) <==> StarClear(g, true)
  {
    if StarClear(g, true) {
      forall r, c | 0 <= r < |g| && 0 <= c < |g| && |g| / 2 - 1 <= r <= |g| / 2 + 1
        ensures g[r][c].None?
      {
        assert At(g, true, c, r).None?;
      }
    }
  }

  /** considerMove is called with the placements allowed on the board and with no other. */
  lemma SearchOnBoard(d: Dict, g: Grid, first: bool, r: Rack, k: Call)
    requires WellFormed(d) && ValidGrid(g) && ValidRack(d, r) && (first ==> StarRowsClear(g))
    ensures k in AllCalls(d, g, first, r) <==> BoardAllows(d, g, first, r, k)
  {
    hide CallAllowed, BoardAllows, AllCalls, StarClear, StarRowsClear;
    StarRowsClearIs(g);
    SearchExact(d, g, first, r, k);
    BoardExact(d, g, first, r, k);
  }

  // ----- the tray ---------------------------------------------------------------------------

  /** A tray supplies tiles, none of them more often than it has them but for its blanks, and at
      most MAX_TRAY_TILES of them; the blanks are spent on what it lacks. */
  lemma TrayDraws(d: Dict, tray: seq<Tile>, w: seq<Tile>)
    requires d.blankTile <= MAX_UNIQUE_TILES && forall i :: 0 <= i < |w| ==> w[i] <= MAX_UNIQUE_TILES && w[i] != d.blankTile
    ensures var lacking, s := multiset(w) - multiset(tray), Draw(d, TrayRack(tray), w);
            && (s.Some? <==> |w| <= |tray| && |w| <= 9 && |lacking| <= multiset(tray)[d.blankTile])
            && (s.Some? ==> multiset(s.value.blanks) == lacking)
  {
    hide Draw;
    DrawExact(d, TrayRack(tray), w);
    StockOfTray(d, tray, w);
  }

  lemma StockOfTray(d: Dict, tray: seq<Tile>, w: seq<Tile>)
    requires d.blankTile <= MAX_UNIQUE_TILES && forall i :: 0 <= i < |w| ==> w[i] <= MAX_UNIQUE_TILES && w[i] != d.blankTile
    ensures Shortfall(d, TrayRack(tray), w) == multiset(w) - multiset(tray)
  {
    var a, b := Shortfall(d, TrayRack(tray), w), multiset(w) - multiset(tray);
    forall t: Tile
      ensures a[t] == b[t]
    {
      if multiset(w)[t] > 0 {
        assert t in w;
      }
    }
  }
}
