/** The move search of engine.c: a rack taken from and given back to through mutual recursion,
    cross-checks filled in per row, anchors visited left to right. */
module Engine {
  import opened Wrappers
  import opened Dawg
  import opened RowSearch
  import opened RowExact
  import opened RowOnce
  import opened BoardRows

  const MAX_TRAY_TILES: nat := 9

  /** Two 32-bit words, each given by the positions of its set bits. */
  datatype Crosscheck = Crosscheck(bits0: set<nat>, bits1: set<nat>)

  const ALL_BITS: set<nat> := set b: nat | 0 <= b < 32

  predicate Admits(k: Crosscheck, t: Tile) {
    if t < 32 then t in k.bits0 else t - 32 in k.bits1
  }

  /** One call of considerMove: direction, row and the move built from it. */
  datatype Call = Call(isHorizontal: bool, commonCoord: nat, move: Candidate)

  function Calls(horizontal: bool, row: nat, cs: seq<Candidate>): (r: seq<Call>)
    ensures |r| == |cs| && forall i :: 0 <= i < |cs| ==> r[i] == Call(horizontal, row, cs[i])
  {
    seq(|cs|, i requires 0 <= i < |cs| => Call(horizontal, row, cs[i]))
  }

  lemma CallsNone(horizontal: bool, row: nat)
    ensures Calls(horizontal, row, []) == []
  {}

  lemma CallsOne(horizontal: bool, row: nat, c: Candidate)
    ensures Calls(horizontal, row, [c]) == [Call(horizontal, row, c)]
  {}

  lemma CallsConcat(horizontal: bool, row: nat, a: seq<Candidate>, b: seq<Candidate>)
    ensures Calls(horizontal, row, a + b) == Calls(horizontal, row, a) + Calls(horizontal, row, b)
  {}

  /** `placed` is what has been put on the empty squares of `firstCol..col`, all of which it fills. */
  ghost predicate PlacedAt(s: seq<Option<Tile>>, placed: seq<Play>, firstCol: nat, col: nat) {
    && firstCol <= col <= |s|
    && (forall j {:trigger placed[j]} :: 0 <= j < |placed| ==> firstCol <= placed[j].col < col && s[placed[j].col].None?)
    && (forall i, j :: 0 <= i < j < |placed| ==> placed[i].col < placed[j].col)
    && (forall c {:trigger s[c]} :: firstCol <= c < col && s[c].None? ==> Covers(placed, c))
  }

  class EngineCtxt {
    const dict: Dict
    const grid: Grid
    const rack: array<nat>
    const blankValues: array<Tile>
    const rowChecks: array<Crosscheck>
    var nTilesMax: nat
    var blankCount: nat
    var searchHorizontal: bool
    var isFirstMove: bool
    var considered: seq<Call>

    /** What never changes: the dictionary, the board and the sizes of the buffers. */
    ghost predicate Fixed() {
      && rack.Length == MAX_UNIQUE_TILES + 1
      && blankValues.Length == MAX_TRAY_TILES
      && rowChecks.Length == MAX_ROWS
      && rack != blankValues
      && WellFormed(dict) && dict.topEdge.Some? && ValidGrid(grid)
    }

    ghost predicate Valid()
      reads `nTilesMax, `blankCount
    {
      Fixed() && blankCount + nTilesMax <= MAX_TRAY_TILES
    }

    /** The rack as a value. */
    ghost function RackNow(): (r: Rack)
      requires Valid()
      reads `nTilesMax, `blankCount, rack, blankValues
      ensures ValidRack(dict, r)
    {
      Rack(rack[..], nTilesMax, blankValues[..blankCount])
    }

    /** The row under search, with the cross-checks the rules prescribe. */
    ghost function TheRow(row: nat): (x: Row)
      requires Fixed() && row < |grid|
      reads `searchHorizontal
      ensures ValidRow(x) && x.d == dict && x.squares == RowSquares(grid, searchHorizontal, row)
    {
      RowOf(dict, grid, searchHorizontal, row)
    }

    /** The stored cross-checks are those of this row. */
    ghost predicate ChecksReady(row: nat)
      requires Fixed() && row < |grid|
      reads `searchHorizontal, rowChecks
    {
      forall c, t: Tile :: 0 <= c < |grid| && t < MAX_UNIQUE_TILES ==>
        (Admits(rowChecks[c], t) <==> t in TheRow(row).checks[c])
    }

    /** initTray and the set-up of engine_findMove. */
    constructor (dict: Dict, grid: Grid, tray: seq<Tile>, first: bool)
      requires WellFormed(dict) && dict.topEdge.Some? && ValidGrid(grid)
      requires forall i :: 0 <= i < |tray| ==> tray[i] <= MAX_UNIQUE_TILES
      ensures Valid() && fresh(rack) && fresh(blankValues) && fresh(rowChecks)
      ensures this.dict == dict && this.grid == grid && isFirstMove == first && considered == []
      ensures RackNow() == TrayRack(tray)
    {
      this.dict, this.grid := dict, grid;
      rack := new nat[MAX_UNIQUE_TILES + 1](_ => 0);
      blankValues := new Tile[MAX_TRAY_TILES];
      rowChecks := new Crosscheck[MAX_ROWS](_ => Crosscheck({}, {}));
      nTilesMax := if |tray| < MAX_TRAY_TILES then |tray| else MAX_TRAY_TILES;
      blankCount, searchHorizontal, isFirstMove, considered := 0, true, first, [];
      new;
      InitTray(tray);
      assert rack[..] == TrayRack(tray).counts;
    }

    /** initTray: count the tiles of the tray. */
    method InitTray(tray: seq<Tile>)
      requires rack.Length == MAX_UNIQUE_TILES + 1 && forall t :: 0 <= t < rack.Length ==> rack[t] == 0
      requires forall i :: 0 <= i < |tray| ==> tray[i] <= MAX_UNIQUE_TILES
      modifies rack
      ensures forall t :: 0 <= t < rack.Length ==> rack[t] == multiset(tray)[t]
    {
      var ii := 0;
      while ii < |tray|
        invariant 0 <= ii <= |tray|
        invariant forall t :: 0 <= t < rack.Length ==> rack[t] == multiset(tray[..ii])[t]
      {
        rack[tray[ii]] := rack[tray[ii]] + 1;
        assert tray[..ii + 1] == tray[..ii] + [tray[ii]];
        ii := ii + 1;
      }
      assert tray[..|tray|] == tray;
    }

    method RackRemove(tile: Tile) returns (found: bool, isBlank: bool)
      requires Valid() && nTilesMax > 0 && tile < MAX_UNIQUE_TILES && tile != dict.blankTile
      modifies this`nTilesMax, this`blankCount, rack, blankValues
      ensures Valid() && nTilesMax == old(nTilesMax) - if found then 1 else 0
      ensures found == RowSearch.RackRemove(dict, old(RackNow()), tile).Some?
      ensures found ==> RowSearch.RackRemove(dict, old(RackNow()), tile) == Some(RackNow())
                        && isBlank == (old(rack[tile]) == 0)
      ensures !found ==> RackNow() == old(RackNow())
    {
      found, isBlank := true, false;
      if rack[tile] > 0 {
        rack[tile] := rack[tile] - 1;
      } else if rack[dict.blankTile] > 0 {
        rack[dict.blankTile] := rack[dict.blankTile] - 1;
        blankValues[blankCount] := tile;
        blankCount := blankCount + 1;
        isBlank := true;
      } else {
        found := false;
      }
      if found {
        nTilesMax := nTilesMax - 1;
        ghost var taken := if isBlank then dict.blankTile else tile;
        assert rack[..] == old(rack[..])[taken := old(rack[taken]) - 1];
        assert blankValues[..blankCount] == old(blankValues[..blankCount]) + if isBlank then [tile] else [];
      } else {
        assert rack[..] == old(rack[..]);
      }
    }

    /** rack_replace undoes the rack_remove that led from `before` to here. */
    method RackReplace(tile: Tile, isBlank: bool, ghost before: Rack)
      requires Valid() && ValidRack(dict, before) && |before.blanks| + before.nTilesMax <= MAX_TRAY_TILES && tile < MAX_UNIQUE_TILES && tile != dict.blankTile
      requires RowSearch.RackRemove(dict, before, tile) == Some(RackNow()) && isBlank == (before.counts[tile] == 0)
      modifies this`nTilesMax, this`blankCount, rack
      ensures Valid() && RackNow() == before
    {
      var t := tile;
      if isBlank {
        blankCount := blankCount - 1;
        t := dict.blankTile;
      }
      rack[t] := rack[t] + 1;
      nTilesMax := nTilesMax + 1;
      assert rack[..] == before.counts;
      assert blankValues[..blankCount] == before.blanks;
    }

    /** considerMove: find again the columns of the tiles by scanning for empty squares. */
    method ConsiderMove(tiles: array<Tile>, tileLength: nat, firstCol: nat, row: nat, ghost placed: seq<Play>, ghost col: nat)
      requires Valid() && row < |grid| && tileLength == |placed| <= tiles.Length
      requires PlacedAt(TheRow(row).squares, placed, firstCol, col) && Tiles(placed) == tiles[..tileLength]
      modifies this`considered
      ensures Valid() && considered == old(considered) + [Call(searchHorizontal, row, Candidate(placed, RackNow().blanks))]
    {
      var plays: seq<Play> := [];
      var c := firstCol;
      ghost var s := TheRow(row).squares;
      while |plays| < tileLength
        invariant considered == old(considered) && |plays| <= tileLength && plays == placed[..|plays|]
        invariant firstCol <= c <= col
        invariant forall j {:trigger placed[j]} :: |plays| <= j < |placed| ==> c <= placed[j].col
        invariant forall j {:trigger placed[j]} :: 0 <= j < |plays| ==> placed[j].col < c
        decreases col - c
      {
        assert placed[|plays|].col < col;
        if At(grid, searchHorizontal, c, row).None? {
          NextIsHere(s, placed, firstCol, col, |plays|, c);
          assert placed[|plays|].tile == Tiles(placed)[|plays|] == tiles[..tileLength][|plays|];
          plays := plays + [Play(c, tiles[|plays|])];
        }
        c := c + 1;
      }
      assert plays == placed;
      considered := considered + [Call(searchHorizontal, row, Candidate(plays, blankValues[..blankCount]))];
    }

    method ExtendRight(tiles: array<Tile>, tileLength: nat, edge: Option<nat>, accepting: bool, firstCol: nat, col: nat, row: nat,
                       ghost placed: seq<Play>)
      requires Valid() && row < |grid| && ChecksReady(row) && Buffer(tiles)
      requires ValidEdge(dict, edge) && tileLength + nTilesMax <= MAX_TRAY_TILES && tileLength == |placed|
      requires PlacedAt(TheRow(row).squares, placed, firstCol, col) && Tiles(placed) == tiles[..tileLength]
      modifies this`nTilesMax, this`blankCount, this`considered, rack, blankValues, tiles
      ensures Valid() && RackNow() == old(RackNow()) && tiles[..tileLength] == old(tiles[..tileLength])
      ensures considered == old(considered) +
                Calls(searchHorizontal, row, RowSearch.ExtendRight(TheRow(row), old(RackNow()), placed, edge, accepting, col))
      decreases |grid| - col, 2
    {
      hide RowSearch.ExtendRight, RackNow, Tiles, PlacedAt, RowOf, Calls, ChecksReady, WellFormed;
      PlacedBounds(TheRow(row).squares, placed, firstCol, col);
      if col < |grid| && At(grid, searchHorizontal, col, row).Some? {
        ExtendOver(tiles, tileLength, edge, accepting, firstCol, col, row, placed);
      } else {
        ExtendAtGap(tiles, tileLength, edge, accepting, firstCol, col, row, placed);
      }
    }

    /** extendRight on a filled square. */
    method ExtendOver(tiles: array<Tile>, tileLength: nat, edge: Option<nat>, ghost accepting: bool, firstCol: nat, col: nat, row: nat,
                      ghost placed: seq<Play>)
      requires Valid() && row < |grid| && ChecksReady(row) && Buffer(tiles)
      requires ValidEdge(dict, edge) && tileLength + nTilesMax <= MAX_TRAY_TILES && tileLength == |placed|
      requires PlacedAt(TheRow(row).squares, placed, firstCol, col) && Tiles(placed) == tiles[..tileLength]
      requires col < |grid| && TheRow(row).squares[col].Some?
      modifies this`nTilesMax, this`blankCount, this`considered, rack, blankValues, tiles
      ensures Valid() && RackNow() == old(RackNow()) && tiles[..tileLength] == old(tiles[..tileLength])
      ensures considered == old(considered) +
                Calls(searchHorizontal, row, RowSearch.ExtendRight(TheRow(row), old(RackNow()), placed, edge, accepting, col))
      decreases |grid| - col, 1
    {
      hide RowSearch.ExtendRight, ExtendSiblings, RackNow, Tiles, PlacedAt, RowOf, Calls, ChecksReady, WellFormed;
      RowReady(row);
      ghost var x := TheRow(row);
      ExtendIs(x, RackNow(), placed, edge, accepting, col);
      CallsNone(searchHorizontal, row);
      if edge.Some? {
        var k := FindEdgeWithTile(dict, edge.value, At(grid, searchHorizontal, col, row).value);
        if k.Some? {
          EdgeReady(k.value);
          PlacedSkip(x.squares, placed, firstCol, col);
          ExtendRight(tiles, tileLength, Follow(dict, k.value), dict.edges[k.value].accepting, firstCol, col + 1, row, placed);
        }
      }
    }

    /** extendRight on an empty square, or past the last. */
    method ExtendAtGap(tiles: array<Tile>, tileLength: nat, edge: Option<nat>, accepting: bool, firstCol: nat, col: nat, row: nat,
                       ghost placed: seq<Play>)
      requires Valid() && row < |grid| && ChecksReady(row) && Buffer(tiles)
      requires ValidEdge(dict, edge) && tileLength + nTilesMax <= MAX_TRAY_TILES && tileLength == |placed|
      requires PlacedAt(TheRow(row).squares, placed, firstCol, col) && Tiles(placed) == tiles[..tileLength]
      requires col < |grid| ==> TheRow(row).squares[col].None?
      modifies this`nTilesMax, this`blankCount, this`considered, rack, blankValues, tiles
      ensures Valid() && RackNow() == old(RackNow()) && tiles[..tileLength] == old(tiles[..tileLength])
      ensures considered == old(considered) +
                Calls(searchHorizontal, row, RowSearch.ExtendRight(TheRow(row), old(RackNow()), placed, edge, accepting, col))
      decreases |grid| - col, 1
    {
      hide RowSearch.ExtendRight, ExtendSiblings, RackNow, Tiles, PlacedAt, RowOf, Calls, ChecksReady, WellFormed, ValidGrid;
      RowReady(row);
      PlacedBounds(TheRow(row).squares, placed, firstCol, col);
      ghost var x, before, h, start := TheRow(row), RackNow(), searchHorizontal, considered;
      ExtendIs(x, before, placed, edge, accepting, col);
      ghost var below: seq<Candidate> := [];
      if col < |grid| && edge.Some? && nTilesMax > 0 {
        below := ExtendSiblings(x, before, placed, edge.value, col);
        ExtendEdges(tiles, tileLength, edge.value, firstCol, col, row, placed);
      }
      CallsAdd(start, h, row, below, accepting, Candidate(placed, before.blanks));
      if accepting {
        ConsiderMove(tiles, tileLength, firstCol, row, placed, col);
      }
    }

    /** The loop of extendRight over the edges out of a node, at an empty square. */
    method ExtendEdges(tiles: array<Tile>, tileLength: nat, edge: nat, firstCol: nat, col: nat, row: nat, ghost placed: seq<Play>)
      requires Valid() && row < |grid| && ChecksReady(row) && Buffer(tiles)
      requires edge < |dict.edges| && nTilesMax > 0 && tileLength + nTilesMax <= MAX_TRAY_TILES && tileLength == |placed|
      requires col < |grid| && TheRow(row).squares[col].None?
      requires PlacedAt(TheRow(row).squares, placed, firstCol, col) && Tiles(placed) == tiles[..tileLength]
      modifies this`nTilesMax, this`blankCount, this`considered, rack, blankValues, tiles
      ensures Valid() && RackNow() == old(RackNow()) && tiles[..tileLength] == old(tiles[..tileLength])
      ensures considered == old(considered) +
                Calls(searchHorizontal, row, ExtendSiblings(TheRow(row), old(RackNow()), placed, edge, col))
      decreases |grid| - col, 0
    {
      hide ExtendSiblings, RowSearch.ExtendRight, ExtendBranch, PlacedAt, RowOf, RowSearch.RackRemove, Calls, Tiles;
      ghost var x, before, h := TheRow(row), RackNow(), searchHorizontal;
      ghost var start := considered;
      var k := edge;
      var check := rowChecks[col].bits0;
      var advanced := false;
      while true
        invariant edge <= k < |dict.edges| && Valid() && RackNow() == before && tiles[..tileLength] == old(tiles[..tileLength])
        invariant start + Calls(h, row, ExtendSiblings(x, before, placed, edge, col)) ==
                  considered + Calls(h, row, ExtendSiblings(x, before, placed, k, col))
        invariant check == if advanced then rowChecks[col].bits1 else rowChecks[col].bits0
        invariant advanced ==> dict.edges[k].tile >= 32
        decreases |dict.edges| - k
      {
        var tile := dict.edges[k].tile;
        var contains;
        if tile >= 32 {
          if !advanced {
            check := rowChecks[col].bits1;
            advanced := true;
          }
          contains := tile - 32 in check;
        } else {
          contains := tile in check;
        }
        assert contains == (tile in x.checks[col]);
        TryEdge(tiles, tileLength, k, contains, firstCol, col, row, placed);
        SplitFirst(h, row, x, before, placed, k, col);
        if dict.edges[k].last {
          break;
        }
        k := k + 1;
      }
    }

    /** One edge of that loop. */
    method TryEdge(tiles: array<Tile>, tileLength: nat, k: nat, contains: bool, firstCol: nat, col: nat, row: nat,
                   ghost placed: seq<Play>)
      requires Valid() && row < |grid| && ChecksReady(row) && Buffer(tiles)
      requires k < |dict.edges| && nTilesMax > 0 && tileLength + nTilesMax <= MAX_TRAY_TILES && tileLength == |placed|
      requires col < |grid| && TheRow(row).squares[col].None?
      requires contains == (dict.edges[k].tile in TheRow(row).checks[col])
      requires PlacedAt(TheRow(row).squares, placed, firstCol, col) && Tiles(placed) == tiles[..tileLength]
      modifies this`nTilesMax, this`blankCount, this`considered, rack, blankValues, tiles
      ensures Valid() && RackNow() == old(RackNow()) && tiles[..tileLength] == old(tiles[..tileLength])
      ensures considered == old(considered) +
                Calls(searchHorizontal, row, ExtendBranch(TheRow(row), old(RackNow()), placed, k, col))
      decreases |grid| - col, 0, 0
    {
      hide PlacedAt, RowOf, RowSearch.ExtendRight, Calls, ChecksReady, ValidGrid, WellFormed;
      CallsNone(searchHorizontal, row);
      RowReady(row);
      EdgeReady(k);
      ghost var x, before := TheRow(row), RackNow();
      var tile := dict.edges[k].tile;
      if contains {
        var found, isBlank := RackRemove(tile);
        if found {
          ghost var placed' := placed + [Play(col, tile)];
          tiles[tileLength] := tile;
          PlacedMore(x.squares, placed, firstCol, col, tile);
          assert tiles[..tileLength + 1] == Tiles(placed');
          ExtendRight(tiles, tileLength + 1, Follow(dict, k), dict.edges[k].accepting, firstCol, col + 1, row, placed');
          assert tiles[..tileLength] == tiles[..tileLength + 1][..tileLength];
          RackReplace(tile, isBlank, before);
        }
      }
    }

    method LeftPart(tiles: array<Tile>, tileLength: nat, edge: Option<nat>, limit: nat, firstCol: nat, anchorCol: nat, row: nat)
      requires Valid() && row < |grid| && ChecksReady(row) && Buffer(tiles)
      requires ValidEdge(dict, edge) && tileLength + nTilesMax <= MAX_TRAY_TILES
      requires firstCol + tileLength == anchorCol < |grid| && limit <= firstCol
      requires forall c :: firstCol - limit <= c < anchorCol ==> TheRow(row).squares[c].None?
      modifies this`nTilesMax, this`blankCount, this`considered, rack, blankValues, tiles
      ensures Valid() && RackNow() == old(RackNow()) && tiles[..tileLength] == old(tiles[..tileLength])
      ensures considered == old(considered) + Calls(searchHorizontal, row,
                RowSearch.LeftPart(TheRow(row), old(RackNow()), old(tiles[..tileLength]), edge, limit, anchorCol))
      decreases limit, 1
    {
      hide RowSearch.ExtendRight, RowOf, PlacedAt, Calls, LeftSiblings, RackNow, ChecksReady, ValidGrid, WellFormed;
      ghost var x, before, w, h := TheRow(row), RackNow(), tiles[..tileLength], searchHorizontal;
      ghost var placed := LaidLeft(w, anchorCol);
      RowReady(row);
      LaidIsPlaced(x.squares, w, anchorCol);
      ExtendRight(tiles, tileLength, edge, false, firstCol, anchorCol, row, placed);
      RowReady(row);
      CallsNone(h, row);
      if limit > 0 && edge.Some? && nTilesMax > 0 {
        LeftEdges(tiles, tileLength, edge.value, limit, firstCol, anchorCol, row);
        CallsConcat(h, row, RowSearch.ExtendRight(x, before, placed, edge, false, anchorCol),
                    LeftSiblings(x, before, w, edge.value, limit, anchorCol));
      } else {
        CallsConcat(h, row, RowSearch.ExtendRight(x, before, placed, edge, false, anchorCol), []);
      }
    }

    /** The loop of leftPart over the edges out of a node. */
    method LeftEdges(tiles: array<Tile>, tileLength: nat, edge: nat, limit: nat, firstCol: nat, anchorCol: nat, row: nat)
      requires Valid() && row < |grid| && ChecksReady(row) && Buffer(tiles)
      requires edge < |dict.edges| && nTilesMax > 0 && tileLength + nTilesMax <= MAX_TRAY_TILES
      requires firstCol + tileLength == anchorCol < |grid| && 0 < limit <= firstCol
      requires forall c :: firstCol - limit <= c < anchorCol ==> TheRow(row).squares[c].None?
      modifies this`nTilesMax, this`blankCount, this`considered, rack, blankValues, tiles
      ensures Valid() && RackNow() == old(RackNow()) && tiles[..tileLength] == old(tiles[..tileLength])
      ensures considered == old(considered) + Calls(searchHorizontal, row,
                LeftSiblings(TheRow(row), old(RackNow()), old(tiles[..tileLength]), edge, limit, anchorCol))
      decreases limit, 0, 1
    {
      hide LeftSiblings, RowSearch.LeftPart, LeftBranch, RowOf, RowSearch.RackRemove, Calls;
      ghost var x, before, h, w := TheRow(row), RackNow(), searchHorizontal, tiles[..tileLength];
      ghost var start := considered;
      var k := edge;
      while true
        invariant edge <= k < |dict.edges| && Valid() && RackNow() == before && tiles[..tileLength] == w
        invariant start + Calls(h, row, LeftSiblings(x, before, w, edge, limit, anchorCol)) ==
                  considered + Calls(h, row, LeftSiblings(x, before, w, k, limit, anchorCol))
        decreases |dict.edges| - k
      {
        TryLeftEdge(tiles, tileLength, k, limit, firstCol, anchorCol, row);
        SplitFirstLeft(h, row, x, before, w, k, limit, anchorCol);
        if dict.edges[k].last {
          break;
        }
        k := k + 1;
      }
    }

    /** One edge of that loop. */
    method TryLeftEdge(tiles: array<Tile>, tileLength: nat, k: nat, limit: nat, firstCol: nat, anchorCol: nat, row: nat)
      requires Valid() && row < |grid| && ChecksReady(row) && Buffer(tiles)
      requires k < |dict.edges| && nTilesMax > 0 && tileLength + nTilesMax <= MAX_TRAY_TILES
      requires firstCol + tileLength == anchorCol < |grid| && 0 < limit <= firstCol
      requires forall c :: firstCol - limit <= c < anchorCol ==> TheRow(row).squares[c].None?
      modifies this`nTilesMax, this`blankCount, this`considered, rack, blankValues, tiles
      ensures Valid() && RackNow() == old(RackNow()) && tiles[..tileLength] == old(tiles[..tileLength])
      ensures considered == old(considered) + Calls(searchHorizontal, row,
                LeftBranch(TheRow(row), old(RackNow()), old(tiles[..tileLength]), k, limit, anchorCol))
      decreases limit, 0, 0
    {
      hide RowSearch.LeftPart, RowOf, Calls, RowSearch.RackRemove, ChecksReady, ValidGrid, WellFormed, ValidRow;
      CallsNone(searchHorizontal, row);
      RowReady(row);
      EdgeReady(k);
      ghost var before, w := RackNow(), tiles[..tileLength];
      var tile := dict.edges[k].tile;
      var found, isBlank := RackRemove(tile);
      if found {
        tiles[tileLength] := tile;
        assert tiles[..tileLength + 1] == w + [tile];
        LeftPart(tiles, tileLength + 1, Follow(dict, k), limit - 1, firstCol - 1, anchorCol, row);
        assert tiles[..tileLength] == tiles[..tileLength + 1][..tileLength];
        RackReplace(tile, isBlank, before);
      }
    }

    /** The tiles left of `col`, nearest first. */
    method GatherLeft(col: nat, row: nat) returns (backwards: seq<Tile>)
      requires ValidGrid(grid) && row < |grid| && col < |grid|
      ensures var s := RowSquares(grid, searchHorizontal, row);
              var w := Letters(s, RunLeft(s, col), col);
              |backwards| == |w| && forall i :: 0 <= i < |w| ==> backwards[i] == w[|w| - 1 - i]
    {
      hide RowSquares, Letters, At;
      ghost var s := RowSquares(grid, searchHorizontal, row);
      backwards := [];
      var maybeX := col;
      while maybeX > 0 && At(grid, searchHorizontal, maybeX - 1, row).Some?
        invariant 0 <= maybeX <= col && |backwards| == col - maybeX
        invariant forall i :: 0 <= i < |backwards| ==> s[col - 1 - i] == Some(backwards[i])
        invariant RunLeft(s, maybeX) == RunLeft(s, col)
      {
        assert s[maybeX - 1] == At(grid, searchHorizontal, maybeX - 1, row);
        backwards := backwards + [At(grid, searchHorizontal, maybeX - 1, row).value];
        maybeX := maybeX - 1;
      }
      assert maybeX > 0 ==> s[maybeX - 1].None?;
    }

    /** consumeFromLeft: gather the tiles left of `col` backwards, then follow them forwards. */
    method ConsumeFromLeft(top: nat, col: nat, row: nat) returns (edge: Option<nat>)
      requires Fixed() && top < |dict.edges| && row < |grid| && col < |grid|
      ensures var s := TheRow(row).squares;
              var path := FollowPath(dict, Some(top), Letters(s, RunLeft(s, col), col));
              edge == (if path.None? then None else path.value) && ValidEdge(dict, edge)
    {
      hide TheRow, RowOf, FollowPath;
      var tiles := GatherLeft(col, row);
      edge := FollowBackwards(top, tiles, Letters(TheRow(row).squares, RunLeft(TheRow(row).squares, col), col));
    }

    method FollowBackwards(top: nat, tiles: seq<Tile>, ghost w: seq<Tile>) returns (edge: Option<nat>)
      requires Sane(dict) && top < |dict.edges|
      requires |tiles| == |w| && forall i :: 0 <= i < |w| ==> tiles[i] == w[|w| - 1 - i]
      ensures var path := FollowPath(dict, Some(top), w);
              edge == (if path.None? then None else path.value) && ValidEdge(dict, edge)
    {
      edge := Some(top);
      var numTiles := |tiles|;
      while numTiles > 0
        invariant 0 <= numTiles <= |tiles| && edge.Some? && ValidEdge(dict, edge)
        invariant FollowPath(dict, Some(top), w) == FollowPath(dict, edge, w[|w| - numTiles..])
      {
        numTiles := numTiles - 1;
        ghost var rest := w[|w| - numTiles - 1..];
        assert rest[0] == tiles[numTiles] && rest[1..] == w[|w| - numTiles..];
        var k := FindEdgeWithTile(dict, edge.value, tiles[numTiles]);
        edge := if k.Some? then Follow(dict, k.value) else None;
        if edge.None? {
          break;
        }
      }
    }

    /** findMovesForAnchor, `prevAnchor` being the last anchor before it (or -1). */
    method FindMovesForAnchor(prevAnchor: int, col: nat, row: nat)
      requires Valid() && row < |grid| && ChecksReady(row) && nTilesMax <= MAX_TRAY_TILES
      requires AnchorsOk(TheRow(row), AnchorRow(grid, searchHorizontal, isFirstMove, row))
      requires Adjacent(AnchorRow(grid, searchHorizontal, isFirstMove, row), prevAnchor, col)
      modifies this`nTilesMax, this`blankCount, this`considered, rack, blankValues
      ensures Valid() && RackNow() == old(RackNow())
      ensures considered == old(considered) +
                Calls(searchHorizontal, row, AnchorMoves(TheRow(row), old(RackNow()), prevAnchor, col))
    {
      hide RowOf, RowSearch.LeftPart, RowSearch.ExtendRight, FollowPath, AnchorsOk, Adjacent, Calls, AnchorRow, AnchorMoves, RackNow, ChecksReady, RunLeft, ValidGrid, WellFormed, PlacedAt;
      ghost var x, anchors := TheRow(row), AnchorRow(grid, searchHorizontal, isFirstMove, row);
      RowReady(row);
      AnchorIsEmpty(x, anchors, prevAnchor, col);
      if col > 0 && At(grid, searchHorizontal, col - 1, row).None? {
        GapIsEmpty(x, anchors, prevAnchor, col);
        LeftMoves(x, RackNow(), prevAnchor, col);
        MovesByLeftPart(prevAnchor, col, row);
      } else {
        GapIsFilled(x, anchors, prevAnchor, col);
        RightMoves(x, RackNow(), prevAnchor, col);
        MovesBehindFilled(prevAnchor, col, row);
      }
    }

    /** findMovesForAnchor where the square to the left is empty. */
    method MovesByLeftPart(prevAnchor: int, col: nat, row: nat)
      requires Valid() && row < |grid| && ChecksReady(row) && nTilesMax <= MAX_TRAY_TILES && -1 <= prevAnchor < col < |grid|
      requires forall c :: prevAnchor < c < col ==> TheRow(row).squares[c].None?
      modifies this`nTilesMax, this`blankCount, this`considered, rack, blankValues
      ensures Valid() && RackNow() == old(RackNow())
      ensures considered == old(considered) + Calls(searchHorizontal, row,
                RowSearch.LeftPart(TheRow(row), old(RackNow()), [], dict.topEdge, col - prevAnchor - 1, col))
    {
      hide RowOf, RowSearch.LeftPart, Calls, RackNow, ChecksReady, ValidGrid, WellFormed;
      RowReady(row);
      var tiles := new Tile[MAX_ROWS];
      assert tiles[..0] == [];
      LeftPart(tiles, 0, Some(dict.topEdge.value), col - prevAnchor - 1, col, col, row);
    }

    /** findMovesForAnchor where the squares to the left are filled, or there are none. */
    method MovesBehindFilled(prevAnchor: int, col: nat, row: nat)
      requires Valid() && row < |grid| && ChecksReady(row) && nTilesMax <= MAX_TRAY_TILES && -1 <= prevAnchor < col < |grid|
      requires PlacedAt(TheRow(row).squares, [], prevAnchor + 1, col)
      modifies this`nTilesMax, this`blankCount, this`considered, rack, blankValues
      ensures Valid() && RackNow() == old(RackNow())
      ensures var x := TheRow(row);
              var path := FollowPath(dict, dict.topEdge, Letters(x.squares, RunLeft(x.squares, col), col));
              considered == old(considered) + Calls(searchHorizontal, row,
                RowSearch.ExtendRight(x, old(RackNow()), [], if path.None? then None else path.value, false, col))
    {
      hide RowOf, RowSearch.ExtendRight, FollowPath, Calls, RackNow, ChecksReady, RunLeft, ValidGrid, WellFormed, PlacedAt;
      RowReady(row);
      var tiles := new Tile[MAX_ROWS];
      var edge := Some(dict.topEdge.value);
      if col > 0 {
        edge := ConsumeFromLeft(dict.topEdge.value, col, row);
      } else {
        AtLeftEdge(TheRow(row));
      }
      assert Tiles([]) == tiles[..0];
      ExtendRight(tiles, 0, edge, false, prevAnchor + 1, col, row, []);
    }

    method IsAnchorSquare(col: nat, row: nat) returns (r: bool)
      requires ValidGrid(grid) && col < |grid| && row < |grid|
      ensures r == IsAnchor(grid, searchHorizontal, isFirstMove, col, row)
    {
      if At(grid, searchHorizontal, col, row).Some? {
        return false;
      }
      if isFirstMove {
        return col == |grid| / 2 && row == |grid| / 2;
      }
      if col != 0 && At(grid, searchHorizontal, col - 1, row).Some? {
        return true;
      }
      if col < |grid| - 1 && At(grid, searchHorizontal, col + 1, row).Some? {
        return true;
      }
      if row != 0 && At(grid, searchHorizontal, col, row - 1).Some? {
        return true;
      }
      if row < |grid| - 1 && At(grid, searchHorizontal, col, row + 1).Some? {
        return true;
      }
      return false;
    }

    /** Where the tiles directly above the square begin. */
    method StartAbove(col: nat, row: nat) returns (startY: nat)
      requires ValidGrid(grid) && col < |grid| && row < |grid|
      ensures startY == RunLeft(ColSquares(grid, searchHorizontal, col), row)
    {
      ghost var s := ColSquares(grid, searchHorizontal, col);
      startY := row;
      while startY > 0
        invariant startY <= row && RunLeft(s, startY) == RunLeft(s, row)
      {
        assert s[startY - 1] == At(grid, searchHorizontal, col, startY - 1);
        if At(grid, searchHorizontal, col, startY - 1).None? {
          break;
        }
        startY := startY - 1;
      }
    }

    /** Follow the tiles on rows `startY..row` from the top of the dictionary. */
    method ConsumeAbove(col: nat, startY: nat, row: nat) returns (edge: Option<nat>)
      requires Sane(dict) && dict.topEdge.Some? && ValidEdge(dict, dict.topEdge)
      requires ValidGrid(grid) && col < |grid| && startY <= row < |grid|
      requires forall i :: startY <= i < row ==> ColSquares(grid, searchHorizontal, col)[i].Some?
      ensures var path := FollowPath(dict, dict.topEdge, Letters(ColSquares(grid, searchHorizontal, col), startY, row));
              edge == (if path.None? then None else path.value) && ValidEdge(dict, edge)
    {
      hide FollowPath, EdgeWithTile, RowSearch.Letters;
      ghost var s := ColSquares(grid, searchHorizontal, col);
      ghost var w := Letters(s, startY, row);
      FollowNothing(dict, dict.topEdge);
      assert w[0..] == w;
      edge := dict.topEdge;
      var y := startY;
      while y < row
        invariant startY <= y <= row && edge.Some? && ValidEdge(dict, edge)
        invariant FollowPath(dict, dict.topEdge, w) == FollowPath(dict, edge, w[y - startY..])
      {
        ghost var rest := w[y - startY..];
        assert s[y] == At(grid, searchHorizontal, col, y);
        assert rest[0] == s[y].value && rest[1..] == w[y + 1 - startY..];
        FollowStep(dict, edge.value, rest);
        var k := FindEdgeWithTile(dict, edge.value, At(grid, searchHorizontal, col, y).value);
        edge := if k.Some? then Follow(dict, k.value) else None;
        if edge.None? {
          return;
        }
        y := y + 1;
      }
      FollowNothing(dict, edge);
      assert w[row - startY..] == [];
    }

    /** The tiles directly below the square. */
    method TilesBelow(col: nat, row: nat) returns (after: seq<Tile>)
      requires ValidGrid(grid) && col < |grid| && row < |grid|
      ensures var s := ColSquares(grid, searchHorizontal, col);
              after == Letters(s, row + 1, RunRight(s, row + 1))
    {
      ghost var s := ColSquares(grid, searchHorizontal, col);
      after := [];
      var y := row + 1;
      while y < |grid|
        invariant row + 1 <= y <= |grid| && |after| == y - (row + 1)
        invariant forall i :: 0 <= i < |after| ==> s[row + 1 + i] == Some(after[i])
        invariant RunRight(s, y) == RunRight(s, row + 1)
      {
        assert s[y] == At(grid, searchHorizontal, col, y);
        if At(grid, searchHorizontal, col, y).None? {
          break;
        }
        after := after + [At(grid, searchHorizontal, col, y).value];
        y := y + 1;
      }
    }

    /** Try every tile leaving `inEdge` before the tiles `after`; set the bits of those that work. */
    method CandidateBits(inEdge: nat, after: seq<Tile>) returns (check: Crosscheck)
      requires WellFormed(dict) && inEdge < |dict.edges|
      ensures forall t: Tile :: t < MAX_UNIQUE_TILES ==> (Admits(check, t) <==> Accepts(dict, Some(inEdge), [t] + after))
    {
      check := Crosscheck({}, {});
      var k := inEdge;
      while true
        invariant InRun(dict, inEdge, k)
        invariant forall t: Tile :: t < MAX_UNIQUE_TILES ==>
                    (Admits(check, t) <==> TriedAndFits(dict, inEdge, k, after, t))
        decreases |dict.edges| - k
      {
        hide Accepts;
        var tile := dict.edges[k].tile;
        var ok := Lookup(dict, Some(inEdge), [tile] + after, 0, 1 + |after|);
        assert ([tile] + after)[0..1 + |after|] == [tile] + after;
        ghost var before := check;
        if ok {
          check := if tile < 32 then check.(bits0 := check.bits0 + {tile}) else check.(bits1 := check.bits1 + {tile - 32});
        }
        forall t: Tile | t < MAX_UNIQUE_TILES
          ensures Admits(check, t) <==> TriedAndFits(dict, inEdge, k + 1, after, t)
        {
          TriedStep(dict, inEdge, k, after, t);
          assert Admits(check, t) <==> Admits(before, t) || (ok && t == tile);
        }
        if dict.edges[k].last {
          forall t: Tile | t < MAX_UNIQUE_TILES
            ensures TriedAndFits(dict, inEdge, k + 1, after, t) <==> Accepts(dict, Some(inEdge), [t] + after)
          {
            TriedAll(dict, inEdge, k, after, t);
          }
          break;
        }
        k := k + 1;
      }
    }

    /** figureCrosschecks, without the score it also adds up. */
    method FigureCrosschecks(col: nat, row: nat)
      requires Fixed() && col < |grid| && row < |grid| && rowChecks[col] == Crosscheck({}, {})
      modifies rowChecks
      ensures forall t: Tile :: t < MAX_UNIQUE_TILES ==>
                (Admits(rowChecks[col], t) <==> t in CrossTiles(dict, grid, searchHorizontal, col, row))
      ensures forall c :: 0 <= c < rowChecks.Length && c != col ==> rowChecks[c] == old(rowChecks[c])
    {
      if At(grid, searchHorizontal, col, row).None? {
        hide WellFormed, Accepts, FollowPath, RunLeft, RunRight, Letters, CrossWord;
        var startY := StartAbove(col, row);
        NeighbourAbove(grid, searchHorizontal, col, row);
        if startY == row && (row == |grid| - 1 || At(grid, searchHorizontal, col, row + 1).None?) {
          rowChecks[col] := Crosscheck(ALL_BITS, ALL_BITS);
        } else {
          var check := BitsBetween(col, startY, row);
          rowChecks[col] := check;
        }
      }
    }

    /** The tiles that fit between the squares above and those below. */
    method BitsBetween(col: nat, startY: nat, row: nat) returns (check: Crosscheck)
      requires Fixed() && col < |grid| && row < |grid| && startY == RunLeft(ColSquares(grid, searchHorizontal, col), row)
      requires HasVerticalNeighbour(grid, searchHorizontal, col, row)
      ensures forall t: Tile :: t < MAX_UNIQUE_TILES ==> (CrossOk(dict, grid, searchHorizontal, col, row, t) <==> Admits(check, t))
    {
      hide Sane, Accepts, FollowPath, RunLeft, RunRight, Letters, CrossWord, ValidGrid, CrossOk;
      check := Crosscheck({}, {});
      var inEdge := ConsumeAbove(col, startY, row);
      if inEdge.Some? {
        var after := TilesBelow(col, row);
        check := CandidateBits(inEdge.value, after);
      }
      forall t: Tile | t < MAX_UNIQUE_TILES
        ensures CrossOk(dict, grid, searchHorizontal, col, row, t) <==> Admits(check, t)
      {
        CrossSplit(dict, grid, searchHorizontal, col, row, t);
        NoEdgeNoWord(dict, [t] + Letters(ColSquares(grid, searchHorizontal, col), row + 1, RunRight(ColSquares(grid, searchHorizontal, col), row + 1)));
      }
    }

    /** The cross-checks of a whole row. */
    method FillRowChecks(row: nat)
      requires Fixed() && row < |grid|
      modifies rowChecks
      ensures ChecksReady(row)
    {
      hide CrossTiles, Admits;
      ghost var h := searchHorizontal;
      for c := 0 to rowChecks.Length
        invariant forall i :: 0 <= i < c ==> rowChecks[i] == Crosscheck({}, {})
      {
        rowChecks[c] := Crosscheck({}, {});
      }
      for col := 0 to |grid|
        invariant forall i :: col <= i < |grid| ==> rowChecks[i] == Crosscheck({}, {})
        invariant forall c, t: Tile :: 0 <= c < col && t < MAX_UNIQUE_TILES ==>
                    (Admits(rowChecks[c], t) <==> t in CrossTiles(dict, grid, h, c, row))
      {
        FigureCrosschecks(col, row);
      }
      assert forall c :: 0 <= c < |grid| ==> TheRow(row).checks[c] == CrossTiles(dict, grid, h, c, row);
    }

    lemma RowReady(row: nat)
      requires Valid() && row < |grid|
      ensures ValidRow(TheRow(row)) && ValidRack(dict, RackNow()) && TheRow(row).d == dict
      ensures Sane(dict) && ValidEdge(dict, dict.topEdge)
      ensures |TheRow(row).checks| == |TheRow(row).squares| == |AnchorRow(grid, searchHorizontal, isFirstMove, row)| == |grid|
      ensures |grid| <= MAX_ROWS && RackNow().nTilesMax == nTilesMax && |RackNow().blanks| + nTilesMax <= MAX_TRAY_TILES
    {}

    /** What following edge `k` and taking its tile ask for. */
    lemma EdgeReady(k: nat)
      requires Valid() && k < |dict.edges|
      ensures ValidEdge(dict, Follow(dict, k)) && dict.edges[k].tile < MAX_UNIQUE_TILES && dict.edges[k].tile != dict.blankTile
    {}

    /** findMovesOneRow, without search limits. */
    method FindMovesOneRow(row: nat)
      requires Valid() && row < |grid| && (isFirstMove ==> row == |grid| / 2 && StarClear(grid, searchHorizontal))
      modifies this`nTilesMax, this`blankCount, this`considered, rack, blankValues, rowChecks
      ensures Valid() && RackNow() == old(RackNow())
      ensures considered == old(considered) +
                Calls(searchHorizontal, row, RowCandidates(dict, grid, searchHorizontal, isFirstMove, row, old(RackNow())))
    {
      hide RowOf, AnchorRow, AnchorMoves, IsAnchor, Calls, StarClear, AnchorsOk, RowMoves, LastAnchor, Adjacent, CrossTiles, RackNow, ChecksReady, ValidGrid, WellFormed;
      ghost var x, anchors, r, h := TheRow(row), AnchorRow(grid, searchHorizontal, isFirstMove, row), RackNow(), searchHorizontal;
      ghost var start := considered;
      RowReady(row);
      AnchorsAreOk(dict, grid, searchHorizontal, isFirstMove, row);
      FillRowChecks(row);
      var prevAnchor := -1;
      var col := 0;
      FirstColumn(anchors);
      while col < |grid|
        invariant -1 <= prevAnchor < col <= |grid| && Valid() && RackNow() == r && ChecksReady(row)
        invariant LastAnchor(anchors, prevAnchor, col)
        invariant start + Calls(h, row, RowMoves(x, r, anchors, -1, 0)) ==
                  considered + Calls(h, row, RowMoves(x, r, anchors, prevAnchor, col))
      {
        NextColumn(x, r, anchors, prevAnchor, col);
        var isAnchor := IsAnchorSquare(col, row);
        if isAnchor {
          CallsConcat(h, row, AnchorMoves(x, r, prevAnchor, col), RowMoves(x, r, anchors, col, col + 1));
          FindMovesForAnchor(prevAnchor, col, row);
          prevAnchor := col;
        }
        col := col + 1;
      }
      PastLastColumn(x, r, anchors, prevAnchor);
      CallsNone(h, row);
    }

    /** All rows in the present direction; on the first move only the star row. */
    method SearchDirection()
      requires Valid() && (isFirstMove ==> StarClear(grid, searchHorizontal))
      modifies this`nTilesMax, this`blankCount, this`considered, rack, blankValues, rowChecks
      ensures Valid() && RackNow() == old(RackNow())
      ensures considered == old(considered) + RowsCalls(dict, grid, searchHorizontal, isFirstMove, old(RackNow()), 0)
    {
      hide RowCandidates, Calls, StarClear, RowsCalls, RackNow, Sane;
      ghost var r, h, start := RackNow(), searchHorizontal, considered;
      var starRow := |grid| / 2;
      var curRow := 0;
      while curRow < |grid|
        invariant 0 <= curRow <= |grid| && Valid() && RackNow() == r
        invariant start + RowsCalls(dict, grid, h, isFirstMove, r, 0) == considered + RowsCalls(dict, grid, h, isFirstMove, r, curRow)
      {
        RowsStep(dict, grid, h, isFirstMove, r, curRow, considered);
        if !(isFirstMove && curRow != starRow) {
          FindMovesOneRow(curRow);
        }
        curRow := curRow + 1;
      }
      NoRowsLeft(dict, grid, h, isFirstMove, r, considered);
    }

    /** The search loop of engine_findMove, run to completion without search limits: across, then
        down; on the first move only across. */
    method SearchAll()
      requires Valid() && considered == [] && (isFirstMove ==> StarClear(grid, true))
      modifies this`searchHorizontal, this`nTilesMax, this`blankCount, this`considered, rack, blankValues, rowChecks
      ensures Valid() && RackNow() == old(RackNow())
      ensures considered == AllCalls(dict, grid, isFirstMove, old(RackNow()))
    {
      hide RowsCalls, StarClear;
      searchHorizontal := true;
      while true
        invariant Valid() && RackNow() == old(RackNow())
        invariant considered == if searchHorizontal then [] else RowsCalls(dict, grid, true, isFirstMove, old(RackNow()), 0)
        invariant !searchHorizontal ==> !isFirstMove
        decreases if searchHorizontal then 1 else 0
      {
        SearchDirection();
        if !searchHorizontal || isFirstMove {
          break;
        }
        searchHorizontal := false;
      }
    }

    /** A buffer for the tiles being tried, apart from the engine's own arrays. */
    ghost predicate Buffer(tiles: array<Tile>) {
      tiles.Length == MAX_ROWS && tiles != rack && tiles != blankValues
    }
  }

  lemma FirstColumn(anchors: seq<bool>)
    ensures LastAnchor(anchors, -1, 0)
  {}

  lemma PastLastColumn(x: Row, r: Rack, anchors: seq<bool>, prev: int)
    requires ValidRow(x) && ValidRack(x.d, r) && |x.squares| == |anchors| && LastAnchor(anchors, prev, |anchors|)
    ensures RowMoves(x, r, anchors, prev, |anchors|) == []
  {}

  lemma NextColumn(x: Row, r: Rack, anchors: seq<bool>, prev: int, col: nat)
    requires ValidRow(x) && ValidRack(x.d, r) && |x.squares| == |anchors| && col < |anchors| && LastAnchor(anchors, prev, col)
    ensures anchors[col] ==> Adjacent(anchors, prev, col) && LastAnchor(anchors, col, col + 1)
    ensures anchors[col] ==>
              RowMoves(x, r, anchors, prev, col) == AnchorMoves(x, r, prev, col) + RowMoves(x, r, anchors, col, col + 1)
    ensures !anchors[col] ==>
              LastAnchor(anchors, prev, col + 1) && RowMoves(x, r, anchors, prev, col) == RowMoves(x, r, anchors, prev, col + 1)
  {
    hide AnchorMoves;
  }

  lemma SplitFirst(h: bool, row: nat, x: Row, r: Rack, placed: seq<Play>, k: nat, col: nat)
    requires ValidRow(x) && k < |x.d.edges| && ValidRack(x.d, r) && col < |x.squares|
    ensures Calls(h, row, ExtendSiblings(x, r, placed, k, col)) ==
              Calls(h, row, ExtendBranch(x, r, placed, k, col)) +
              if x.d.edges[k].last then [] else Calls(h, row, ExtendSiblings(x, r, placed, k + 1, col))
  {
    var rest := if x.d.edges[k].last then [] else ExtendSiblings(x, r, placed, k + 1, col);
    CallsConcat(h, row, ExtendBranch(x, r, placed, k, col), rest);
  }

  lemma SplitFirstLeft(h: bool, row: nat, x: Row, r: Rack, w: seq<Tile>, k: nat, limit: nat, anchor: nat)
    requires ValidRow(x) && k < |x.d.edges| && ValidRack(x.d, r) && 0 < limit && |w| + limit <= anchor < |x.squares|
    ensures Calls(h, row, LeftSiblings(x, r, w, k, limit, anchor)) ==
              Calls(h, row, LeftBranch(x, r, w, k, limit, anchor)) +
              if x.d.edges[k].last then [] else Calls(h, row, LeftSiblings(x, r, w, k + 1, limit, anchor))
  {
    var rest := if x.d.edges[k].last then [] else LeftSiblings(x, r, w, k + 1, limit, anchor);
    CallsConcat(h, row, LeftBranch(x, r, w, k, limit, anchor), rest);
  }

  lemma LaidIsPlaced(s: seq<Option<Tile>>, w: seq<Tile>, anchor: nat)
    requires |w| <= anchor <= |s| && forall c :: anchor - |w| <= c < anchor ==> s[c].None?
    ensures PlacedAt(s, LaidLeft(w, anchor), anchor - |w|, anchor) && Tiles(LaidLeft(w, anchor)) == w
  {
    var p := LaidLeft(w, anchor);
    forall c {:trigger s[c]} | anchor - |w| <= c < anchor && s[c].None?
      ensures Covers(p, c)
    {
      assert p[c - (anchor - |w|)].col == c;
    }
  }

  lemma GapIsEmpty(x: Row, anchors: seq<bool>, prev: int, a: nat)
    requires AnchorsOk(x, anchors) && Adjacent(anchors, prev, a) && a > 0 && x.squares[a - 1].None?
    ensures forall c :: prev < c < a ==> x.squares[c].None?
  {
    forall c | prev < c < a
      ensures x.squares[c].None?
    {
      GapEmpty(x, anchors, prev, a, c);
    }
  }

  /** If the square left of an anchor is filled, so is everything back to the previous anchor. */
  lemma GapIsFilled(x: Row, anchors: seq<bool>, prev: int, a: nat)
    requires AnchorsOk(x, anchors) && Adjacent(anchors, prev, a) && (a == 0 || x.squares[a - 1].Some?)
    ensures PlacedAt(x.squares, [], prev + 1, a)
  {
    forall c {:trigger x.squares[c]} | prev < c < a
      ensures x.squares[c].Some?
    {
      GapFilled(x, anchors, prev, a, c);
    }
  }

  lemma {:induction false} GapFilled(x: Row, anchors: seq<bool>, prev: int, a: nat, c: nat)
    requires AnchorsOk(x, anchors) && Adjacent(anchors, prev, a) && a > 0 && x.squares[a - 1].Some?
    requires prev < c < a
    ensures x.squares[c].Some?
    decreases a - c
  {
    if c < a - 1 {
      GapFilled(x, anchors, prev, a, c + 1);
    }
  }

  /** What is yielded at a column, square by square. */
  lemma ExtendIs(x: Row, r: Rack, placed: seq<Play>, e: Option<nat>, accepting: bool, col: nat)
    requires ValidRow(x) && Sane(x.d) && ValidEdge(x.d, e) && ValidRack(x.d, r) && col <= |x.squares|
    ensures var all, here := RowSearch.ExtendRight(x, r, placed, e, accepting, col), if accepting then [Candidate(placed, r.blanks)] else [];
            if col == |x.squares| || x.squares[col].None? then
              all == (if col < |x.squares| && e.Some? && r.nTilesMax > 0 then ExtendSiblings(x, r, placed, e.value, col) else []) + here
            else if e.None? then all == []
            else
              var k := EdgeWithTile(x.d, e.value, x.squares[col].value);
              if k.None? then all == []
              else all == RowSearch.ExtendRight(x, r, placed, Follow(x.d, k.value), x.d.edges[k.value].accepting, col + 1)
  {
    hide ExtendSiblings, WellFormed;
    var here := if accepting then [Candidate(placed, r.blanks)] else [];
    assert [] + here == here;
  }

  lemma CallsAdd(start: seq<Call>, h: bool, row: nat, below: seq<Candidate>, accepting: bool, c: Candidate)
    ensures start + Calls(h, row, below + if accepting then [c] else []) ==
              if accepting then start + Calls(h, row, below) + [Call(h, row, c)] else start + Calls(h, row, below)
    ensures start + Calls(h, row, []) == start
  {
    CallsNone(h, row);
    CallsOne(h, row, c);
    CallsConcat(h, row, below, if accepting then [c] else []);
  }

  /** What an anchor with an empty square to its left gives. */
  lemma LeftMoves(x: Row, r: Rack, prev: int, a: nat)
    requires ValidRow(x) && ValidRack(x.d, r) && -1 <= prev < a < |x.squares| && a > 0 && x.squares[a - 1].None?
    ensures AnchorMoves(x, r, prev, a) == RowSearch.LeftPart(x, r, [], x.d.topEdge, a - prev - 1, a)
  {
    hide RowSearch.LeftPart;
  }

  lemma AtLeftEdge(x: Row)
    requires ValidRow(x)
    ensures FollowPath(x.d, x.d.topEdge, Letters(x.squares, RunLeft(x.squares, 0), 0)) == Some(x.d.topEdge)
  {
    assert Letters(x.squares, 0, 0) == [];
    FollowNothing(x.d, x.d.topEdge);
  }

  lemma FollowStep(d: Dict, e: nat, w: seq<Tile>)
    requires Sane(d) && e < |d.edges| && w != []
    ensures var k := EdgeWithTile(d, e, w[0]);
            FollowPath(d, Some(e), w) == if k.None? then None else FollowPath(d, Follow(d, k.value), w[1..])
    ensures EdgeWithTile(d, e, w[0]).Some? && Follow(d, EdgeWithTile(d, e, w[0]).value).None? ==>
              FollowPath(d, Some(e), w) == if |w| == 1 then Some(None) else None
  {}

  lemma FollowNothing(d: Dict, e: Option<nat>)
    requires Sane(d) && ValidEdge(d, e)
    ensures FollowPath(d, e, []) == Some(e)
  {}

  /** Tile `t` leaves `inEdge` on an edge before `k` and spells a word with `after`. */
  ghost predicate TriedAndFits(d: Dict, inEdge: nat, k: nat, after: seq<Tile>, t: Tile)
    requires Sane(d) && inEdge < |d.edges|
  {
    EdgeWithTile(d, inEdge, t).Some? && EdgeWithTile(d, inEdge, t).value < k && Accepts(d, Some(inEdge), [t] + after)
  }

  lemma TriedStep(d: Dict, inEdge: nat, k: nat, after: seq<Tile>, t: Tile)
    requires WellFormed(d) && InRun(d, inEdge, k)
    ensures TriedAndFits(d, inEdge, k + 1, after, t) <==>
              TriedAndFits(d, inEdge, k, after, t) || (t == d.edges[k].tile && Accepts(d, Some(inEdge), [t] + after))
  {
    hide Accepts;
    EdgeWithTileExact(d, inEdge, t, k);
  }

  lemma TriedAll(d: Dict, inEdge: nat, k: nat, after: seq<Tile>, t: Tile)
    requires WellFormed(d) && InRun(d, inEdge, k) && d.edges[k].last
    ensures TriedAndFits(d, inEdge, k + 1, after, t) <==> Accepts(d, Some(inEdge), [t] + after)
  {
    var w := [t] + after;
    assert w[0] == t;
    if EdgeWithTile(d, inEdge, t).Some? {
      EdgeWithTileExact(d, inEdge, t, EdgeWithTile(d, inEdge, t).value);
    }
  }

  lemma NeighbourAbove(g: Grid, h: bool, col: nat, row: nat)
    requires ValidGrid(g) && col < |g| && row < |g|
    ensures var s := ColSquares(g, h, col);
            HasVerticalNeighbour(g, h, col, row) <==>
              RunLeft(s, row) != row || (row + 1 < |g| && At(g, h, col, row + 1).Some?)
  {
    var s := ColSquares(g, h, col);
    if row > 0 {
      assert s[row - 1] == At(g, h, col, row - 1);
    }
  }

  lemma NoEdgeNoWord(d: Dict, w: seq<Tile>)
    requires Sane(d)
    ensures !Accepts(d, None, w)
  {}

  lemma CrossSplit(d: Dict, g: Grid, h: bool, col: nat, row: nat, t: Tile)
    requires WellFormedTop(d) && ValidGrid(g) && col < |g| && row < |g| && HasVerticalNeighbour(g, h, col, row)
    ensures var s := ColSquares(g, h, col);
            var path := FollowPath(d, d.topEdge, Letters(s, RunLeft(s, row), row));
            CrossOk(d, g, h, col, row, t) <==>
              path.Some? && Accepts(d, path.value, [t] + Letters(s, row + 1, RunRight(s, row + 1)))
  {
    var s := ColSquares(g, h, col);
    var above, below := Letters(s, RunLeft(s, row), row), Letters(s, row + 1, RunRight(s, row + 1));
    assert CrossWord(g, h, col, row, t) == above + ([t] + below);
    AcceptsSplit(d, d.topEdge, above, [t] + below);
  }

  /** The calls of the rows from `row` on, in one direction. */
  ghost function RowsCalls(d: Dict, g: Grid, h: bool, first: bool, r: Rack, row: nat): seq<Call>
    requires WellFormedTop(d) && ValidGrid(g) && ValidRack(d, r) && row <= |g|
    decreases |g| - row
  {
    if row == |g| then []
    else
      (if first && row != |g| / 2 then [] else Calls(h, row, RowCandidates(d, g, h, first, row, r)))
      + RowsCalls(d, g, h, first, r, row + 1)
  }

  lemma RowsStep(d: Dict, g: Grid, h: bool, first: bool, r: Rack, row: nat, before: seq<Call>)
    requires WellFormedTop(d) && ValidGrid(g) && ValidRack(d, r) && row < |g|
    ensures var here := if first && row != |g| / 2 then [] else Calls(h, row, RowCandidates(d, g, h, first, row, r));
            before + RowsCalls(d, g, h, first, r, row) == (before + here) + RowsCalls(d, g, h, first, r, row + 1)
            && before + [] == before
  {
    hide RowCandidates, Calls;
  }

  lemma NoRowsLeft(d: Dict, g: Grid, h: bool, first: bool, r: Rack, before: seq<Call>)
    requires WellFormedTop(d) && ValidGrid(g) && ValidRack(d, r)
    ensures before + RowsCalls(d, g, h, first, r, |g|) == before
  {}

  ghost function AllCalls(d: Dict, g: Grid, first: bool, r: Rack): seq<Call>
    requires WellFormedTop(d) && ValidGrid(g) && ValidRack(d, r)
  {
    RowsCalls(d, g, true, first, r, 0) + if first then [] else RowsCalls(d, g, false, first, r, 0)
  }

  /** A move is made in the direction and on the row of the call, as the rules allow. */
  ghost predicate CallAllowed(d: Dict, g: Grid, first: bool, r: Rack, k: Call)
    requires WellFormed(d) && ValidGrid(g) && ValidRack(d, r)
  {
    k.commonCoord < |g| && (first ==> k.isHorizontal) && RulesAllow(d, g, k.isHorizontal, first, k.commonCoord, r, k.move)
  }

  lemma {:induction false} RowsCallsExact(d: Dict, g: Grid, h: bool, first: bool, r: Rack, row: nat, k: Call)
    requires WellFormed(d) && ValidGrid(g) && ValidRack(d, r) && row <= |g| && (first ==> StarClear(g, h))
    ensures k in RowsCalls(d, g, h, first, r, row) <==>
              k.isHorizontal == h && row <= k.commonCoord < |g| && RulesAllow(d, g, h, first, k.commonCoord, r, k.move)
    decreases |g| - row
  {
    hide RowCandidates, RulesAllow;
    if row < |g| {
      RowsCallsExact(d, g, h, first, r, row + 1, k);
      if first && row != |g| / 2 {
        OnlyStarRow(d, g, h, row, r, k.move);
      } else {
        RowSearchExact(d, g, h, first, row, r, k.move);
        var cs := RowCandidates(d, g, h, first, row, r);
        assert k in Calls(h, row, cs) <==> k.isHorizontal == h && k.commonCoord == row && k.move in cs by {
          if k.isHorizontal == h && k.commonCoord == row && k.move in cs {
            var i :| 0 <= i < |cs| && cs[i] == k.move;
            assert Calls(h, row, cs)[i] == k;
          }
        }
      }
    }
  }

  lemma OnlyStarRow(d: Dict, g: Grid, h: bool, row: nat, r: Rack, c: Candidate)
    requires WellFormed(d) && ValidGrid(g) && ValidRack(d, r) && row < |g| && row != |g| / 2
    ensures !RulesAllow(d, g, h, true, row, r, c)
  {}

  /** The whole search considers exactly the moves the rules allow, in either direction. */
  lemma {:induction false} SearchExact(d: Dict, g: Grid, first: bool, r: Rack, k: Call)
    requires WellFormed(d) && ValidGrid(g) && ValidRack(d, r) && (first ==> StarClear(g, true))
    ensures k in AllCalls(d, g, first, r) <==> CallAllowed(d, g, first, r, k)
  {
    hide RulesAllow, RowsCalls;
    RowsCallsExact(d, g, true, first, r, 0, k);
    if !first {
      RowsCallsExact(d, g, false, first, r, 0, k);
    }
  }

  /** The direction, row and plays of a call: what makes it a different move. */
  ghost predicate SameMove(a: Call, b: Call) {
    a.isHorizontal == b.isHorizontal && a.commonCoord == b.commonCoord && a.move.plays == b.move.plays
  }

  lemma {:induction false} CallsNoDups(h: bool, row: nat, cs: seq<Candidate>)
    requires NoDups(cs)
    ensures NoDups(Calls(h, row, cs))
  {
    var ks := Calls(h, row, cs);
    forall i, j | 0 <= i < j < |ks|
      ensures ks[i] != ks[j]
    {
      assert ks[i].move == cs[i] && ks[j].move == cs[j];
    }
  }

  lemma {:induction false} RowsCallsOnce(d: Dict, g: Grid, h: bool, first: bool, r: Rack, row: nat)
    requires WellFormed(d) && ValidGrid(g) && ValidRack(d, r) && row <= |g| && (first ==> StarClear(g, h))
    ensures NoDups(RowsCalls(d, g, h, first, r, row))
    decreases |g| - row
  {
    hide NoDups, RulesAllow, RowMoves;
    ShortNoDups<Call>([]);
    if row < |g| {
      var here := if first && row != |g| / 2 then [] else Calls(h, row, RowCandidates(d, g, h, first, row, r));
      var rest := RowsCalls(d, g, h, first, r, row + 1);
      RowsCallsOnce(d, g, h, first, r, row + 1);
      if !(first && row != |g| / 2) {
        AnchorsAreOk(d, g, h, first, row);
        RowOnceFrom(RowOf(d, g, h, row), r, AnchorRow(g, h, first, row), -1, 0);
        CallsNoDups(h, row, RowCandidates(d, g, h, first, row, r));
      }
      forall k | k in here
        ensures k !in rest
      {
        RowsCallsExact(d, g, h, first, r, row + 1, k);
      }
      NoDupsConcat(here, rest);
    }
  }

  lemma AllCallsNoDups(d: Dict, g: Grid, first: bool, r: Rack)
    requires WellFormed(d) && ValidGrid(g) && ValidRack(d, r) && (first ==> StarClear(g, true))
    ensures NoDups(AllCalls(d, g, first, r))
  {
    hide RowsCalls, NoDups, RulesAllow;
    var across := RowsCalls(d, g, true, first, r, 0);
    RowsCallsOnce(d, g, true, first, r, 0);
    if first {
      assert across + [] == across;
    } else {
      var down := RowsCalls(d, g, false, first, r, 0);
      RowsCallsOnce(d, g, false, first, r, 0);
      forall k | k in across
        ensures k !in down
      {
        RowsCallsExact(d, g, true, first, r, 0, k);
        RowsCallsExact(d, g, false, first, r, 0, k);
      }
      NoDupsConcat(across, down);
    }
  }

  /** The whole search considers no move twice. */
  lemma {:induction false} SearchOnce(d: Dict, g: Grid, first: bool, r: Rack, i: nat, j: nat)
    requires WellFormed(d) && ValidGrid(g) && ValidRack(d, r) && (first ==> StarClear(g, true))
    requires i < |AllCalls(d, g, first, r)| && j < |AllCalls(d, g, first, r)|
    requires SameMove(AllCalls(d, g, first, r)[i], AllCalls(d, g, first, r)[j])
    ensures i == j
  {
    hide RowsCalls, Overlay, Accepts;
    var all := AllCalls(d, g, first, r);
    AllCallsNoDups(d, g, first, r);
    SearchExact(d, g, first, r, all[i]);
    SearchExact(d, g, first, r, all[j]);
    SameBlanks(d, g, first, r, all[i], all[j]);
  }

  lemma SameBlanks(d: Dict, g: Grid, first: bool, r: Rack, a: Call, b: Call)
    requires WellFormed(d) && ValidGrid(g) && ValidRack(d, r) && SameMove(a, b)
    requires CallAllowed(d, g, first, r, a) && CallAllowed(d, g, first, r, b)
    ensures a == b
  {}

  lemma PlacedBounds(s: seq<Option<Tile>>, placed: seq<Play>, firstCol: nat, col: nat)
    requires PlacedAt(s, placed, firstCol, col)
    ensures firstCol <= col <= |s|
  {}

  lemma PlacedSkip(s: seq<Option<Tile>>, placed: seq<Play>, firstCol: nat, col: nat)
    requires PlacedAt(s, placed, firstCol, col) && col < |s| && s[col].Some?
    ensures PlacedAt(s, placed, firstCol, col + 1)
  {}

  lemma PlacedMore(s: seq<Option<Tile>>, placed: seq<Play>, firstCol: nat, col: nat, t: Tile)
    requires PlacedAt(s, placed, firstCol, col) && col < |s| && s[col].None?
    ensures PlacedAt(s, placed + [Play(col, t)], firstCol, col + 1)
    ensures Tiles(placed + [Play(col, t)]) == Tiles(placed) + [t]
  {
    var p := placed + [Play(col, t)];
    assert p[|placed|] == Play(col, t);
    forall c {:trigger s[c]} | firstCol <= c < col + 1 && s[c].None?
      ensures Covers(p, c)
    {
      if c < col {
        assert Covers(placed, c);
        var j :| 0 <= j < |placed| && placed[j].col == c;
        assert p[j].col == c;
      }
    }
  }

  /** The first play not yet found is the one on the first empty square not yet passed. */
  lemma NextIsHere(s: seq<Option<Tile>>, placed: seq<Play>, firstCol: nat, col: nat, m: nat, c: nat)
    requires PlacedAt(s, placed, firstCol, col) && m < |placed| && firstCol <= c < col && s[c].None?
    requires forall j {:trigger placed[j]} :: m <= j < |placed| ==> c <= placed[j].col
    requires forall j {:trigger placed[j]} :: 0 <= j < m ==> placed[j].col < c
    ensures placed[m].col == c
    ensures forall j {:trigger placed[j]} :: m + 1 <= j < |placed| ==> c + 1 <= placed[j].col
  {
    assert Covers(placed, c);
    var j :| 0 <= j < |placed| && placed[j].col == c;
    assert m <= j && c <= placed[m].col;
  }

  /** The rack that initTray makes of the tray. */
  ghost function TrayRack(tray: seq<Tile>): Rack {
    Rack(seq(MAX_UNIQUE_TILES + 1, t => multiset(tray)[t]),
         if |tray| < MAX_TRAY_TILES then |tray| else MAX_TRAY_TILES, [])
  }
}
