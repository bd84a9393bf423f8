/** How the board's pixels are shared out among its columns and rows, scrolled or zoomed (board.c). */
module BoardGeometry {
  import opened Wrappers

  /** The pixels of cells `a` up to `b`. */
  function Sum(dims: seq<nat>, a: nat, b: nat): nat
    requires b <= |dims|
    decreases b
  {
    if b <= a then 0 else Sum(dims, a, b - 1) + dims[b - 1]
  }

  lemma {:induction false} SumGrows(dims: seq<nat>, a: nat, b: nat, c: nat)
    requires b <= c <= |dims|
    ensures Sum(dims, a, b) <= Sum(dims, a, c)
    decreases c
  {
    if b < c { SumGrows(dims, a, b, c - 1); }
  }

  lemma {:induction false} SumFirst(dims: seq<nat>, a: nat, b: nat)
    requires a < b <= |dims|
    ensures Sum(dims, a, b) == dims[a] + Sum(dims, a + 1, b)
    decreases b
  {
    if a + 1 < b { SumFirst(dims, a, b - 1); }
  }

  // ----- sharing out ------------------------------------------------------------------------

  function Quot(a: nat, n: nat): nat
    requires n > 0
  {
    a / n
  }

  function Rem(a: nat, n: nat): (r: nat)
    requires n > 0
    ensures r < n
  {
    a % n
  }

  function Times(a: nat, b: nat): nat { a * b }

  /** Every cell gets its share; what is left over goes to the first of every `nVisible` cells. */
  function Dim(ii: nat, nVisible: nat, increment: nat, extra: nat): nat
    requires nVisible > 0
  {
    increment + Quot(extra, nVisible) + if Rem(ii, nVisible) < Rem(extra, nVisible) then 1 else 0
  }

  ghost predicate SharedOut(dims: seq<nat>, nVisible: nat, increment: nat, extra: nat)
    requires nVisible > 0
  {
    forall ii :: 0 <= ii < |dims| ==> dims[ii] == Dim(ii, nVisible, increment, extra)
  }

  /** figureDims. */
  method FigureDims(edges: array<nat>, nVisible: nat, increment: nat, extra: nat) returns (changed: bool)
    requires nVisible > 0
    modifies edges
    ensures SharedOut(edges[..], nVisible, increment, extra) && changed == (edges[..] != old(edges[..]))
  {
    hide Quot, Rem;
    changed := false;
    var nAtStart := Rem(extra, nVisible);
    var share := increment + Quot(extra, nVisible);
    var ii := 0;
    while ii < edges.Length
      invariant ii <= edges.Length
      invariant forall k :: 0 <= k < ii ==> edges[k] == Dim(k, nVisible, increment, extra)
      invariant forall k :: ii <= k < edges.Length ==> edges[k] == old(edges[k])
      invariant changed <==> exists k :: 0 <= k < ii && edges[k] != old(edges[k])
    {
      var newVal := share;
      if Rem(ii, nVisible) < nAtStart {
        newVal := newVal + 1;
      }
      if edges[ii] != newVal {
        edges[ii] := newVal;
        changed := true;
      }
      ii := ii + 1;
    }
    SameAt(edges[..], old(edges[..]));
  }

  lemma SameAt(a: seq<nat>, b: seq<nat>)
    requires |a| == |b|
    ensures a != b <==> exists k :: 0 <= k < |a| && a[k] != b[k]
  {}

  lemma {:induction false} FirstCells(dims: seq<nat>, n: nat, increment: nat, extra: nat, k: nat)
    requires n > 0 && SharedOut(dims, n, increment, extra) && k <= n && k <= |dims|
    ensures Sum(dims, 0, k) == Times(k, increment + Quot(extra, n)) + if k < Rem(extra, n) then k else Rem(extra, n)
    decreases k
  {
    hide Quot, Rem, Times;
    if k == 0 {
      NoTimes(increment + Quot(extra, n));
    } else {
      FirstCells(dims, n, increment, extra, k - 1);
      assert dims[k - 1] == Dim(k - 1, n, increment, extra);
      OwnRemainder(k - 1, n);
      OneMore(k - 1, increment + Quot(extra, n));
    }
  }

  lemma NoTimes(share: nat)
    ensures Times(0, share) == 0
  {}

  lemma OneMore(k: nat, share: nat)
    ensures Times(k + 1, share) == Times(k, share) + share
  {}

  lemma OwnRemainder(k: nat, n: nat)
    requires k < n
    ensures Rem(k, n) == k && Quot(k, n) == 0
  {}

  /** However far it is scrolled, any `n` cells in a row take up just the pixels there are. */
  lemma {:induction false} AnyRunFills(dims: seq<nat>, n: nat, increment: nat, extra: nat, a: nat)
    requires n > 0 && SharedOut(dims, n, increment, extra) && a + n <= |dims|
    ensures Sum(dims, a, a + n) == Times(n, increment) + extra
    decreases a
  {
    hide Quot, Rem, Times;
    if a == 0 {
      FirstCells(dims, n, increment, extra, n);
      Shares(n, increment, extra);
    } else {
      AnyRunFills(dims, n, increment, extra, a - 1);
      SumFirst(dims, a - 1, a - 1 + n);
      SamePlace(a - 1, n);
      assert dims[a - 1] == Dim(a - 1, n, increment, extra);
      assert dims[a - 1 + n] == Dim(a - 1 + n, n, increment, extra);
    }
  }

  lemma Shares(n: nat, increment: nat, extra: nat)
    requires n > 0
    ensures Times(n, increment + Quot(extra, n)) + Rem(extra, n) == Times(n, increment) + extra
  {
    assert n * (increment + extra / n) == n * increment + n * (extra / n);
  }

  lemma SamePlace(a: nat, n: nat)
    requires n > 0
    ensures Rem(a + n, n) == Rem(a, n)
  {
    assert a + n == n * (a / n + 1) + a % n;
    Remainder(a + n, n, a / n + 1, a % n);
  }

  lemma Remainder(x: nat, n: nat, q: nat, r: nat)
    requires r < n && x == n * q + r
    ensures x % n == r
  {
    var d := x / n - q;
    assert n * (x / n) - n * q == n * d;
    assert d > 0 ==> n * d >= n;
    assert d < 0 ==> n * d + n <= 0;
  }

  // ----- the board --------------------------------------------------------------------------

  class ScrollData {
    var scale: nat
    var offset: nat
    var maxOffset: nat
    var lastVisible: nat
    const dims: array<nat>

    constructor (maxCells: nat)
      ensures fresh(dims) && dims.Length == maxCells
    {
      scale, offset, maxOffset, lastVisible, dims := 0, 0, 0, 0, new nat[maxCells];
    }

    /** The cells in sight fill `size` pixels, and there are `count` cells in all. */
    ghost predicate Fills(count: nat, size: nat)
      reads this, dims
    {
      offset <= lastVisible < count <= dims.Length && Sum(dims[..], offset, lastVisible + 1) == size
    }

    /** figureScale. */
    method FigureScale(count: nat, zoomCount: nat, dimension: nat) returns (newScale: nat, changed: bool)
      requires zoomCount < count <= dims.Length
      modifies `offset, `lastVisible, dims
      ensures Fills(count, dimension) && lastVisible - offset + 1 == count - zoomCount
      ensures offset == if old(offset) < zoomCount then old(offset) else zoomCount
      ensures newScale == Quot(dimension, count - zoomCount) && changed == (dims[..] != old(dims[..]))
      ensures forall c :: 0 <= c < dims.Length ==> newScale <= dims[c] <= newScale + 1
    {
      hide Quot, Rem, Times;
      var nVis := count - zoomCount;
      newScale := Quot(dimension, nVis);
      var spares := Rem(dimension, nVis);
      var most := count - nVis;
      if offset > most {
        offset := most;
      }
      lastVisible := count - zoomCount + offset - 1;
      changed := FigureDims(dims, nVis, newScale, spares);
      AnyRunFills(dims[..], nVis, newScale, spares, offset);
      WholeIs(dimension, nVis);
      assert forall c :: 0 <= c < dims.Length ==> dims[c] == dims[..][c] == Dim(c, nVis, newScale, spares);
      OwnRemainder(spares, nVis);
    }

    /** The rows' part of figureBoardRect, `maxHeight` pixels being free and a row `rowScale` high
        when all are in sight. */
    method FigureRows(nRows: nat, rowScale: nat, maxHeight: nat) returns (changed: bool)
      requires 0 < nRows <= dims.Length && 0 < rowScale <= maxHeight
      modifies `scale, `offset, `maxOffset, `lastVisible, dims
      ensures Fills(nRows, maxHeight) && changed == (dims[..] != old(dims[..]))
      ensures lastVisible - offset + 1 == if Times(nRows, rowScale) <= maxHeight then nRows else Quot(maxHeight, rowScale)
      ensures scale == if Times(nRows, rowScale) <= maxHeight then Quot(maxHeight, nRows) else rowScale
      ensures var most: nat := nRows - (lastVisible - offset + 1);
              && offset == (if old(offset) < most then old(offset) else most)
              && maxOffset == if Times(nRows, rowScale) > maxHeight && old(offset) <= most then most else old(maxOffset)
    {
      hide Quot, Rem, Times;
      var nVisible, extra;
      if Times(nRows, rowScale) <= maxHeight {
        scale := Quot(maxHeight, nRows);
        extra := Rem(maxHeight, nRows);
        offset := 0;
        nVisible := nRows;
        WholeIs(maxHeight, nRows);
      } else {
        scale := rowScale;
        nVisible := Quot(maxHeight, rowScale);
        extra := Rem(maxHeight, rowScale);
        FewerRows(nRows, rowScale, maxHeight);
        var most := nRows - nVisible;
        if offset > most {
          offset := most;
        } else if most != maxOffset {
          maxOffset := most;
        }
      }
      lastVisible := nVisible + offset - 1;
      changed := FigureDims(dims, nVisible, scale, extra);
      AnyRunFills(dims[..], nVisible, scale, extra, offset);
    }
  }

  lemma WholeIs(a: nat, n: nat)
    requires n > 0
    ensures Times(n, Quot(a, n)) + Rem(a, n) == a
  {}

  lemma FewerRows(nRows: nat, rowScale: nat, maxHeight: nat)
    requires 0 < rowScale <= maxHeight < Times(nRows, rowScale)
    ensures 0 < Quot(maxHeight, rowScale) < nRows
    ensures Times(Quot(maxHeight, rowScale), rowScale) + Rem(maxHeight, rowScale) == maxHeight
  {
    var q, r := maxHeight / rowScale, maxHeight % rowScale;
    assert q >= nRows ==> q * rowScale >= nRows * rowScale;
    assert q == 0 ==> maxHeight == r;
  }

  // ----- points and cells -------------------------------------------------------------------

  /** Cell `c` is the one that coordToCell finds `x` pixels from the first cell, `from`: its
      own first pixel line belongs to the cell before. */
  ghost predicate InSpan(dims: seq<nat>, from: nat, c: nat, x: nat)
    requires c < |dims|
  {
    from <= c && x <= Sum(dims, from, c + 1) && (c == from || Sum(dims, from, c) < x)
  }

  lemma SpanUnique(dims: seq<nat>, from: nat, c: nat, d: nat, x: nat)
    requires c < |dims| && d < |dims| && InSpan(dims, from, c, x) && InSpan(dims, from, d, x)
    ensures c == d
  {
    if c < d { SumGrows(dims, from, c + 1, d); }
    if d < c { SumGrows(dims, from, d + 1, c); }
  }

  datatype Rect = Rect(left: nat, top: nat, width: nat, height: nat)

  class BoardCtxt {
    const hsd: ScrollData
    const vsd: ScrollData
    var left: nat
    var top: nat
    var width: nat
    var height: nat
    const nCols: nat

    constructor (hsd: ScrollData, vsd: ScrollData, nCols: nat)
      ensures this.hsd == hsd && this.vsd == vsd && this.nCols == nCols
    {
      this.hsd, this.vsd, this.nCols := hsd, vsd, nCols;
      left, top, width, height := 0, 0, 0, 0;
    }

    /** The figures are those for the board's size. */
    ghost predicate Valid()
      reads this, hsd, vsd, hsd.dims, vsd.dims
    {
      hsd.Fills(nCols, width) && vsd.Fills(nCols, height)
    }

    /** One of coordToCell's two loops. */
    method CellAlong(sd: ScrollData, distance: nat) returns (got: Option<nat>)
      requires nCols <= sd.dims.Length
      ensures got.Some? ==> got.value < nCols && InSpan(sd.dims[..], sd.offset, got.value, distance)
      ensures got.None? ==> sd.offset >= nCols || distance > Sum(sd.dims[..], sd.offset, nCols)
    {
      var x: int := distance;
      var col := sd.offset;
      while col < nCols
        invariant sd.offset <= col && (col <= nCols || col == sd.offset)
        invariant col <= nCols ==> x == distance - Sum(sd.dims[..], sd.offset, col)
        invariant col > sd.offset ==> x > 0
      {
        x := x - sd.dims[col];
        if x <= 0 {
          return Some(col);
        }
        col := col + 1;
      }
      got := None;
    }

    /** coordToCell. */
    method CoordToCell(xx: int, yy: int) returns (cell: Option<(nat, nat)>)
      requires Valid()
      ensures cell.Some? ==>
                && xx >= left && yy >= top && cell.value.0 < nCols && cell.value.1 < nCols
                && InSpan(hsd.dims[..], hsd.offset, cell.value.0, xx - left)
                && InSpan(vsd.dims[..], vsd.offset, cell.value.1, yy - top)
      ensures cell.None? ==>
                || xx < left || yy < top
                || xx - left > Sum(hsd.dims[..], hsd.offset, nCols) || yy - top > Sum(vsd.dims[..], vsd.offset, nCols)
    {
      cell := None;
      if xx >= left && yy >= top {
        var gotCol := CellAlong(hsd, xx - left);
        var gotRow := CellAlong(vsd, yy - top);
        if gotCol.Some? && gotRow.Some? {
          cell := Some((gotCol.value, gotRow.value));
        }
      }
    }

    /** One of getCellRect's two loops. */
    method EdgeOf(sd: ScrollData, start: nat, cell: nat) returns (edge: nat)
      requires cell < nCols <= sd.dims.Length
      ensures edge == start + Sum(sd.dims[..], sd.offset, cell)
    {
      edge := start;
      var cur := sd.offset;
      while cur < cell
        invariant sd.offset <= cur && (cur <= cell || cur == sd.offset)
        invariant cur <= cell ==> edge == start + Sum(sd.dims[..], sd.offset, cur)
        invariant cur > cell ==> edge == start
      {
        edge := edge + sd.dims[cur];
        cur := cur + 1;
      }
    }

    /** getCellRect. */
    method GetCellRect(col: nat, row: nat) returns (onBoard: bool, rect: Rect)
      requires Valid() && col < nCols && row < nCols
      ensures onBoard == (hsd.offset <= col <= hsd.lastVisible && vsd.offset <= row <= vsd.lastVisible)
      ensures rect == Rect(left + Sum(hsd.dims[..], hsd.offset, col), top + Sum(vsd.dims[..], vsd.offset, row),
                           hsd.dims[col], vsd.dims[row])
      ensures onBoard ==> rect.left + rect.width <= left + width && rect.top + rect.height <= top + height
    {
      onBoard := hsd.offset <= col <= hsd.lastVisible && vsd.offset <= row <= vsd.lastVisible;
      var l := EdgeOf(hsd, left, col);
      var t := EdgeOf(vsd, top, row);
      rect := Rect(l, t, hsd.dims[col], vsd.dims[row]);
      if onBoard {
        SumGrows(hsd.dims[..], hsd.offset, col + 1, hsd.lastVisible + 1);
        SumGrows(vsd.dims[..], vsd.offset, row + 1, vsd.lastVisible + 1);
      }
    }

    /** A point strictly right of and below the corner of a cell in sight, and not beyond its size,
        is found to lie in that cell; a point on the board is found in some cell in sight. */
    method PointInCell(col: nat, row: nat, xx: int, yy: int) returns (rect: Rect, cell: Option<(nat, nat)>)
      requires Valid() && hsd.offset <= col <= hsd.lastVisible && vsd.offset <= row <= vsd.lastVisible
      ensures rect.left < xx <= rect.left + rect.width && rect.top < yy <= rect.top + rect.height ==> cell == Some((col, row))
      ensures cell == Some((col, row)) ==>
                && xx <= rect.left + rect.width && (rect.left < xx || (xx == left && col == hsd.offset))
                && yy <= rect.top + rect.height && (rect.top < yy || (yy == top && row == vsd.offset))
      ensures left <= xx <= left + width && top <= yy <= top + height ==>
                cell.Some? && cell.value.0 <= hsd.lastVisible && cell.value.1 <= vsd.lastVisible
    {
      var onBoard;
      onBoard, rect := GetCellRect(col, row);
      cell := CoordToCell(xx, yy);
      ghost var h, v := hsd.dims[..], vsd.dims[..];
      SumGrows(h, hsd.offset, hsd.lastVisible + 1, nCols);
      SumGrows(v, vsd.offset, vsd.lastVisible + 1, nCols);
      if rect.left < xx <= rect.left + rect.width && rect.top < yy <= rect.top + rect.height {
        SumGrows(h, hsd.offset, col + 1, nCols);
        SumGrows(v, vsd.offset, row + 1, nCols);
        SpanUnique(h, hsd.offset, col, cell.value.0, xx - left);
        SpanUnique(v, vsd.offset, row, cell.value.1, yy - top);
      }
      if cell.Some? {
        if cell.value.0 > hsd.lastVisible { SumGrows(h, hsd.offset, hsd.lastVisible + 1, cell.value.0); }
        if cell.value.1 > vsd.lastVisible { SumGrows(v, vsd.offset, vsd.lastVisible + 1, cell.value.1); }
      }
    }
  }
}
