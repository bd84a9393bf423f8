/** What a rack with blanks can supply, said without reference to the order of drawing. */
module RackDraw {
  import opened Dawg
  import opened RowSearch
  import opened Wrappers

  /** The real tiles below `n` on the rack, as a multiset. */
  ghost function StockBelow(counts: seq<nat>, blank: Tile, n: nat): (m: multiset<Tile>)
    requires n <= |counts|
    ensures forall t: Tile :: m[t] == if t < n && t != blank then counts[t] else 0
  {
    if n == 0 then multiset{}
    else if n - 1 == blank then StockBelow(counts, blank, n - 1)
    else StockBelow(counts, blank, n - 1)[n - 1 := counts[n - 1]]
  }

  ghost function Stock(d: Dict, r: Rack): (m: multiset<Tile>)
    requires ValidRack(d, r)
    ensures forall t: Tile :: m[t] == if t <= MAX_UNIQUE_TILES && t != d.blankTile then r.counts[t] else 0
  {
    StockBelow(r.counts, d.blankTile, |r.counts|)
  }

  /** The tiles of `w` for which the rack has no real tile. */
  ghost function Shortfall(d: Dict, r: Rack, w: seq<Tile>): multiset<Tile>
    requires ValidRack(d, r)
  {
    multiset(w) - Stock(d, r)
  }

  lemma ShortfallStep(d: Dict, r: Rack, w: seq<Tile>)
    requires ValidRack(d, r) && w != [] && w[0] != d.blankTile && RackRemove(d, r, w[0]).Some?
    ensures var r' := RackRemove(d, r, w[0]).value;
            if r.counts[w[0]] > 0 then
              Shortfall(d, r, w) == Shortfall(d, r', w[1..]) && r'.counts[d.blankTile] == r.counts[d.blankTile] && r'.blanks == r.blanks
            else
              Shortfall(d, r, w) == multiset{w[0]} + Shortfall(d, r', w[1..])
              && r'.counts[d.blankTile] == r.counts[d.blankTile] - 1 && r'.blanks == r.blanks + [w[0]]
  {
    var r' := RackRemove(d, r, w[0]).value;
    assert w == [w[0]] + w[1..];
    hide StockBelow;
    if r.counts[w[0]] > 0 {
      OneFromStock(multiset(w[1..]), Stock(d, r), Stock(d, r'), w[0]);
    } else {
      NoneInStock(multiset(w[1..]), Stock(d, r), Stock(d, r'), w[0]);
    }
  }

  lemma OneFromStock(m: multiset<Tile>, s: multiset<Tile>, s': multiset<Tile>, t: Tile)
    requires s[t] > 0 && forall u: Tile :: s'[u] == if u == t then s[u] - 1 else s[u]
    ensures (multiset{t} + m) - s == m - s'
  {
    forall u: Tile
      ensures ((multiset{t} + m) - s)[u] == (m - s')[u]
    {}
  }

  lemma NoneInStock(m: multiset<Tile>, s: multiset<Tile>, s': multiset<Tile>, t: Tile)
    requires s[t] == 0 && forall u: Tile :: s'[u] == s[u]
    ensures (multiset{t} + m) - s == multiset{t} + (m - s')
  {
    forall u: Tile
      ensures ((multiset{t} + m) - s)[u] == (multiset{t} + (m - s'))[u]
    {}
  }

  /** Drawing succeeds iff there are enough tiles in all and enough blanks for the shortfall, and
      the blanks are then spent on the shortfall and nothing else. */
  lemma {:induction false} DrawExact(d: Dict, r: Rack, w: seq<Tile>)
    requires ValidRack(d, r)
    requires forall i :: 0 <= i < |w| ==> w[i] <= MAX_UNIQUE_TILES && w[i] != d.blankTile
    ensures Draw(d, r, w).Some? <==> |w| <= r.nTilesMax && |Shortfall(d, r, w)| <= r.counts[d.blankTile]
    ensures Draw(d, r, w).Some? ==>
              multiset(Draw(d, r, w).value.blanks) == multiset(r.blanks) + Shortfall(d, r, w)
    decreases |w|
  {
    if w == [] {
      assert Shortfall(d, r, w) == multiset{};
    } else if RackRemove(d, r, w[0]).None? {
      if r.nTilesMax > 0 {
        assert r.counts[w[0]] == 0 && multiset(w)[w[0]] > 0;
        assert Shortfall(d, r, w)[w[0]] > 0;
      }
    } else {
      ShortfallStep(d, r, w);
      DrawExact(d, RackRemove(d, r, w[0]).value, w[1..]);
    }
  }
}
