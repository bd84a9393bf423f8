/** The word graph of a dictionary (dictnry.c, dawg.h).  Edges lie in one array; the edges
    leaving a node are a run of neighbours closed by the first edge whose `last` bit is set. */
module Dawg {
  import opened Wrappers

  type Tile = nat

  const MAX_UNIQUE_TILES: nat := 64

  datatype Edge = Edge(tile: Tile, accepting: bool, last: bool, next: nat)

  /** `topEdge` is None for an empty dictionary. */
  datatype Dict = Dict(edges: seq<Edge>, topEdge: Option<nat>, nFaces: nat, blankTile: Tile)

  /** What `checkSanity` means to test of the edge array. */
  predicate Sane(d: Dict) {
    && (forall i :: 0 <= i < |d.edges| ==> d.edges[i].tile < d.nFaces && d.edges[i].next < |d.edges|)
    && (forall i :: 0 <= i < |d.edges| - 1 && !d.edges[i].last ==> d.edges[i].tile <= d.edges[i + 1].tile)
    && (d.edges != [] ==> d.edges[|d.edges| - 1].last)
  }

  /** Sanity, plus: tiles are distinct within a run, fit the tile mask and are never the blank. */
  ghost predicate WellFormed(d: Dict) {
    && Sane(d)
    && (forall i :: 0 <= i < |d.edges| ==> d.edges[i].tile < MAX_UNIQUE_TILES && d.edges[i].tile != d.blankTile)
    && (forall i :: 0 <= i < |d.edges| - 1 && !d.edges[i].last ==> d.edges[i].tile < d.edges[i + 1].tile)
    && d.blankTile <= MAX_UNIQUE_TILES
    && ValidEdge(d, d.topEdge)
  }

  predicate ValidEdge(d: Dict, e: Option<nat>) {
    e.Some? ==> e.value < |d.edges|
  }

  /** dict_super_follow: index 0 stands for "no edges below". */
  function Follow(d: Dict, k: nat): (e: Option<nat>)
    requires k < |d.edges|
  {
    if d.edges[k].next == 0 then None else Some(d.edges[k].next)
  }

  /** The edge for `t` in the run that starts at `k`. */
  function EdgeWithTile(d: Dict, k: nat, t: Tile): (e: Option<nat>)
    requires k < |d.edges|
    ensures e.Some? ==> k <= e.value < |d.edges| && d.edges[e.value].tile == t
    decreases |d.edges| - k
  {
    if d.edges[k].tile == t then Some(k)
    else if d.edges[k].last || k + 1 == |d.edges| then None
    else EdgeWithTile(d, k + 1, t)
  }

  /** Position `j` belongs to the run that starts at `k`. */
  ghost predicate InRun(d: Dict, k: nat, j: nat) {
    k <= j < |d.edges| && forall i :: k <= i < j ==> !d.edges[i].last
  }

  lemma {:induction false} RunSorted(d: Dict, k: nat, j: nat)
    requires WellFormed(d) && InRun(d, k, j) && k < j
    ensures d.edges[k].tile < d.edges[j].tile
    decreases j - k
  {
    assert d.edges[j - 1].tile < d.edges[j].tile;
    if k < j - 1 {
      RunSorted(d, k, j - 1);
    }
  }

  /** `EdgeWithTile` finds exactly the edges of the run: it is complete because tiles are distinct. */
  lemma {:induction false} EdgeWithTileExact(d: Dict, k: nat, t: Tile, j: nat)
    requires WellFormed(d) && k < |d.edges|
    ensures EdgeWithTile(d, k, t) == Some(j) <==> InRun(d, k, j) && d.edges[j].tile == t
    decreases |d.edges| - k
  {
    if d.edges[k].tile == t {
      if InRun(d, k, j) && k < j {
        RunSorted(d, k, j);
      }
    } else if !(d.edges[k].last || k + 1 == |d.edges|) {
      EdgeWithTileExact(d, k + 1, t, j);
      assert InRun(d, k, j) && k != j ==> InRun(d, k + 1, j);
      assert InRun(d, k + 1, j) ==> InRun(d, k, j);
    } else {
      assert InRun(d, k, j) ==> k == j;
    }
  }

  /** The word `w` can be spelled from the node whose run starts at `e`. */
  predicate Accepts(d: Dict, e: Option<nat>, w: seq<Tile>)
    requires Sane(d) && ValidEdge(d, e)
    decreases |w|
  {
    e.Some? && w != [] &&
    match EdgeWithTile(d, e.value, w[0])
    case None => false
    case Some(k) => if |w| == 1 then d.edges[k].accepting else Accepts(d, Follow(d, k), w[1..])
  }

  /** The run reached by spelling `w`; outer None when some tile has no edge. */
  function FollowPath(d: Dict, e: Option<nat>, w: seq<Tile>): (r: Option<Option<nat>>)
    requires Sane(d) && ValidEdge(d, e)
    ensures r.Some? ==> ValidEdge(d, r.value)
    decreases |w|
  {
    if w == [] then Some(e)
    else if e.None? then None
    else match EdgeWithTile(d, e.value, w[0])
      case None => None
      case Some(k) => FollowPath(d, Follow(d, k), w[1..])
  }

  /** Edges that spell `w`: each carries its tile and lies in the run that the one before it links
      to, the first in the run from `k` on, and the last of them ends a word. */
  ghost predicate Spelled(d: Dict, k: nat, p: seq<nat>, w: seq<Tile>)
    decreases |w|
  {
    && |p| == |w| > 0 && InRun(d, k, p[0]) && d.edges[p[0]].tile == w[0]
    && if |w| == 1 then d.edges[p[0]].accepting
       else d.edges[p[0]].next != 0 && Spelled(d, d.edges[p[0]].next, p[1..], w[1..])
  }

  /** A word is accepted if and only if there are such edges. */
  lemma {:induction false} AcceptsExact(d: Dict, k: nat, w: seq<Tile>)
    requires WellFormed(d) && k < |d.edges|
    ensures Accepts(d, Some(k), w) <==> exists p :: Spelled(d, k, p, w)
  {
    if Accepts(d, Some(k), w) {
      var p := SpelledPath(d, k, w);
      assert exists q :: Spelled(d, k, q, w) by { assert Spelled(d, k, p, w); }
    } else {
      forall p
        ensures Spelled(d, k, p, w) ==> Accepts(d, Some(k), w)
      {
        if Spelled(d, k, p, w) { SpelledAccepted(d, k, p, w); }
      }
    }
  }

  lemma {:induction false} SpelledPath(d: Dict, k: nat, w: seq<Tile>) returns (p: seq<nat>)
    requires WellFormed(d) && k < |d.edges| && Accepts(d, Some(k), w)
    ensures Spelled(d, k, p, w)
    decreases |w|
  {
    var j := EdgeWithTile(d, k, w[0]).value;
    EdgeWithTileExact(d, k, w[0], j);
    if |w| == 1 {
      p := [j];
    } else {
      var rest := SpelledPath(d, d.edges[j].next, w[1..]);
      p := [j] + rest;
      assert p[0] == j && p[1..] == rest && Follow(d, j).Some?;
    }
  }

  lemma {:induction false} SpelledAccepted(d: Dict, k: nat, p: seq<nat>, w: seq<Tile>)
    requires WellFormed(d) && k < |d.edges| && Spelled(d, k, p, w)
    ensures Accepts(d, Some(k), w)
    decreases |w|
  {
    EdgeWithTileExact(d, k, w[0], p[0]);
    if |w| > 1 {
      SpelledAccepted(d, d.edges[p[0]].next, p[1..], w[1..]);
    }
  }

  lemma {:induction false} AcceptsSplit(d: Dict, e: Option<nat>, v: seq<Tile>, w: seq<Tile>)
    requires Sane(d) && ValidEdge(d, e) && w != []
    ensures Accepts(d, e, v + w) <==>
              FollowPath(d, e, v).Some? && Accepts(d, FollowPath(d, e, v).value, w)
    decreases |v|
  {
    if v == [] {
      assert v + w == w;
    } else {
      assert (v + w)[0] == v[0] && (v + w)[1..] == v[1..] + w;
      if e.Some? && EdgeWithTile(d, e.value, v[0]).Some? {
        AcceptsSplit(d, Follow(d, EdgeWithTile(d, e.value, v[0]).value), v[1..], w);
      }
    }
  }

  lemma {:induction false} FollowPathSplit(d: Dict, e: Option<nat>, v: seq<Tile>, w: seq<Tile>)
    requires Sane(d) && ValidEdge(d, e)
    ensures FollowPath(d, e, v + w) ==
              if FollowPath(d, e, v).None? then None else FollowPath(d, FollowPath(d, e, v).value, w)
    decreases |v|
  {
    if v == [] {
      assert v + w == w;
    } else {
      assert (v + w)[0] == v[0] && (v + w)[1..] == v[1..] + w;
      if e.Some? && EdgeWithTile(d, e.value, v[0]).Some? {
        FollowPathSplit(d, Follow(d, EdgeWithTile(d, e.value, v[0]).value), v[1..], w);
      }
    }
  }

  /** dict_super_edge_with_tile: scan the siblings from `from` until the tile or the last edge. */
  method FindEdgeWithTile(d: Dict, from: nat, tile: Tile) returns (e: Option<nat>)
    requires Sane(d) && from < |d.edges|
    ensures e == EdgeWithTile(d, from, tile)
  {
    var edge := from;
    while true
      invariant from <= edge < |d.edges|
      invariant EdgeWithTile(d, from, tile) == EdgeWithTile(d, edge, tile)
      decreases |d.edges| - edge
    {
      if d.edges[edge].tile == tile {
        return Some(edge);
      }
      if d.edges[edge].last {
        return None;
      }
      edge := edge + 1;
    }
  }

  /** engine.c's lookup: is `buf[tileIndex..length]` a word from the run at `edge`? */
  method Lookup(d: Dict, edge: Option<nat>, buf: seq<Tile>, tileIndex: nat, length: nat) returns (result: bool)
    requires Sane(d) && ValidEdge(d, edge) && tileIndex < length <= |buf|
    ensures result == Accepts(d, edge, buf[tileIndex..length])
  {
    var e, i := edge, tileIndex;
    while e.Some?
      invariant tileIndex <= i < length && ValidEdge(d, e)
      invariant Accepts(d, edge, buf[tileIndex..length]) == Accepts(d, e, buf[i..length])
      decreases length - i
    {
      ghost var w := buf[i..length];
      assert w[0] == buf[i] && w[1..] == buf[i + 1..length];
      e := FindEdgeWithTile(d, e.value, buf[i]);
      if e.None? {
        break;
      }
      i := i + 1;
      if i == length {
        return d.edges[e.value].accepting;
      }
      e := Follow(d, e.value);
    }
    return false;
  }

  /** checkSanity.  The loop's final test reads `0 == prevTile`, so an array whose final edge is
      not a last edge still passes when that edge carries tile 0. */
  method CheckSanity(d: Dict) returns (passed: bool)
    ensures passed <==> Sane(d.(edges := CloseFinal(d.edges)))
  {
    var prevTile := 0;
    var ii := 0;
    passed := true;
    ghost var closed := CloseFinal(d.edges);
    while ii < |d.edges|
      invariant 0 <= ii <= |d.edges|
      invariant prevTile == if ii == 0 || d.edges[ii - 1].last then 0 else d.edges[ii - 1].tile
      invariant forall i :: 0 <= i < ii ==> d.edges[i].tile < d.nFaces && d.edges[i].next < |d.edges|
      invariant forall i :: 0 <= i < ii - 1 && !d.edges[i].last ==> d.edges[i].tile <= d.edges[i + 1].tile
    {
      var edge := d.edges[ii];
      if edge.tile < prevTile || edge.tile >= d.nFaces {
        assert closed[ii].tile == edge.tile;
        assert edge.tile < d.nFaces ==> !closed[ii - 1].last && closed[ii - 1].tile == prevTile;
        return false;
      }
      if edge.next >= |d.edges| {
        assert closed[ii].next == edge.next;
        return false;
      }
      prevTile := if edge.last then 0 else edge.tile;
      ii := ii + 1;
    }
    passed := prevTile == 0;
  }

  /** The edges with the final one closed if its tile is 0. */
  ghost function CloseFinal(edges: seq<Edge>): (r: seq<Edge>)
    ensures |r| == |edges|
  {
    if edges == [] then edges
    else
      var n := |edges| - 1;
      if edges[n].tile == 0 then edges[n := edges[n].(last := true)] else edges
  }

  /** checkSanity accepts exactly the sane arrays, and those whose only fault is an unclosed
      final run ending in tile 0. */
  lemma CheckSanityGap(d: Dict)
    ensures Sane(d.(edges := CloseFinal(d.edges))) <==>
              Sane(d) || (d.edges != [] && !d.edges[|d.edges| - 1].last && d.edges[|d.edges| - 1].tile == 0
                          && Sane(d.(edges := d.edges[|d.edges| - 1 := d.edges[|d.edges| - 1].(last := true)])))
  {
    if d.edges != [] {
      var n := |d.edges| - 1;
      if d.edges[n].last {
        assert CloseFinal(d.edges) == d.edges;
        assert d == d.(edges := d.edges);
      }
    }
  }
}
