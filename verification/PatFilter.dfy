/** The pattern filter of the dictionary iterator (dictiter.c), one pattern at a time: for every
    tile of the word so far, the set of pattern elements that tile may have been matched by. */
module PatFilter {
  import opened Wrappers
  import opened Dawg

  /** An element matches between `minMatched` and `maxMatched` tiles in a row.  `tiles` are those
      listed, with their counts; a listed blank stands for any tile.  `single` is FLAG_SINGLE: no
      tile may be used more often than it is listed. */
  datatype PatElem = PatElem(minMatched: nat, maxMatched: nat, tiles: multiset<Tile>, single: bool)

  type Pat = seq<PatElem>

  type ElemSet = set<nat>

  // ----- one element ------------------------------------------------------------------------

  /** How many of the latest tiles in a row may have been matched by element `i`. */
  function Streak(hist: seq<ElemSet>, i: nat): (c: nat)
    ensures c <= |hist|
    decreases |hist|
  {
    if hist == [] || i !in hist[|hist| - 1] then 0 else 1 + Streak(hist[..|hist| - 1], i)
  }

  function TakeTile(m: multiset<Tile>, blank: Tile, t: Tile): Option<multiset<Tile>> {
    if m[t] > 0 then Some(m - multiset{t}) else if m[blank] > 0 then Some(m - multiset{blank}) else None
  }

  /** Use up `ts`, the latest tile first. */
  function TakeAll(m: multiset<Tile>, blank: Tile, ts: seq<Tile>): Option<multiset<Tile>>
    decreases |ts|
  {
    if ts == [] then Some(m)
    else match TakeTile(m, blank, ts[|ts| - 1])
      case None => None
      case Some(m') => TakeAll(m', blank, ts[..|ts| - 1])
  }

  predicate Fits(elem: PatElem, blank: Tile, t: Tile) {
    t in elem.tiles || blank in elem.tiles
  }

  /** getMatchInfo's `matched`: may element `i` take `t` next? */
  predicate Matched(pat: Pat, blank: Tile, hist: seq<ElemSet>, ts: seq<Tile>, i: nat, t: Tile)
    requires i < |pat| && |hist| == |ts|
  {
    var elem, c := pat[i], Streak(hist, i);
    && Fits(elem, blank, t)
    && (elem.single ==> var left := TakeAll(elem.tiles, blank, ts[|ts| - c..]);
                        left.Some? && TakeTile(left.value, blank, t).Some?)
    && (c == 0 || c + 1 <= elem.maxMatched)
  }

  // ----- one tile ---------------------------------------------------------------------------

  /** The elements to start from. */
  function Old(hist: seq<ElemSet>): ElemSet {
    if hist == [] then {0} else hist[|hist| - 1]
  }

  /** Element `i` is tried: it may have matched the last tile, or the one before it may be done. */
  predicate Live(pat: Pat, hist: seq<ElemSet>, i: nat)
    requires i <= |pat|
  {
    i in Old(hist) || (i > 0 && Live(pat, hist, i - 1) && Streak(hist, i - 1) >= pat[i - 1].minMatched)
  }

  function Next(pat: Pat, blank: Tile, hist: seq<ElemSet>, ts: seq<Tile>, t: Tile): ElemSet
    requires |hist| == |ts|
  {
    set i | 0 <= i < |pat| && Live(pat, hist, i) && Matched(pat, blank, hist, ts, i, t)
  }

  /** The last element up to `n` in `s`, skipping only optional ones. */
  function LastIn(pat: Pat, s: ElemSet, n: nat): (i: Option<nat>)
    requires n <= |pat|
    ensures i.Some? ==> i.value < n && i.value in s && forall k :: i.value < k < n ==> pat[k].minMatched == 0
  {
    if n == 0 then None
    else if n - 1 in s then Some(n - 1)
    else if pat[n - 1].minMatched != 0 then None
    else LastIn(pat, s, n - 1)
  }

  /** patMatchFinished for one pattern. */
  predicate Finished(pat: Pat, hist: seq<ElemSet>)
    requires hist != []
  {
    var i := LastIn(pat, hist[|hist| - 1], |pat|);
    i.Some? && pat[i.value].minMatched <= Streak(hist, i.value) <= pat[i.value].maxMatched
  }

  /** The sets kept for `ts` are those the filter computes, and none is empty. */
  ghost predicate Traced(pat: Pat, blank: Tile, hist: seq<ElemSet>, ts: seq<Tile>)
    decreases |ts|
  {
    |hist| == |ts| &&
    (ts == [] ||
     var n := |ts| - 1;
     && Traced(pat, blank, hist[..n], ts[..n])
     && hist[n] == Next(pat, blank, hist[..n], ts[..n], ts[n]) && hist[n] != {})
  }

  // ----- what a pattern means ---------------------------------------------------------------

  /** The tiles of `b` beyond those listed. */
  function Excess(elem: PatElem, blank: Tile, b: seq<Tile>): multiset<Tile> {
    multiset(b) - elem.tiles[blank := 0]
  }

  /** The element takes all of `b`, perhaps not for the last time. */
  ghost predicate Part(elem: PatElem, blank: Tile, b: seq<Tile>) {
    && |b| <= elem.maxMatched
    && (forall k :: 0 <= k < |b| ==> b[k] in elem.tiles || blank in elem.tiles)
    && (elem.single ==> |Excess(elem, blank, b)| <= elem.tiles[blank])
  }

  ghost predicate Block(elem: PatElem, blank: Tile, b: seq<Tile>) {
    Part(elem, blank, b) && elem.minMatched <= |b|
  }

  /** `ts` splits into consecutive blocks, one for each of the first `i` elements. */
  ghost predicate UpTo(pat: Pat, blank: Tile, i: nat, ts: seq<Tile>)
    requires i <= |pat|
  {
    if i == 0 then ts == []
    else exists n :: 0 <= n <= |ts| && Block(pat[i - 1], blank, ts[n..]) && UpTo(pat, blank, i - 1, ts[..n])
  }

  ghost predicate Matches(pat: Pat, blank: Tile, ts: seq<Tile>) {
    UpTo(pat, blank, |pat|, ts)
  }

  /** No element is limited to zero tiles. */
  predicate PositiveMax(pat: Pat) {
    forall i :: 0 <= i < |pat| ==> pat[i].maxMatched > 0
  }

  /** A limit of zero tiles is only noticed when the second tile comes: it counts as one. */
  function RaisedElem(elem: PatElem): PatElem {
    if elem.maxMatched == 0 then elem.(maxMatched := 1) else elem
  }

  function Raised(pat: Pat): (r: Pat)
    ensures |r| == |pat| && forall i :: 0 <= i < |pat| ==> r[i] == RaisedElem(pat[i])
  {
    seq(|pat|, i requires 0 <= i < |pat| => RaisedElem(pat[i]))
  }

  // ----- soundness --------------------------------------------------------------------------

  predicate NoBlanks(blank: Tile, ts: seq<Tile>) {
    forall k :: 0 <= k < |ts| ==> ts[k] != blank
  }

  /** Taking tiles one by one succeeds, in whatever order, iff the listed blanks cover the excess. */
  lemma {:induction false} TakeExact(m: multiset<Tile>, blank: Tile, ts: seq<Tile>)
    requires NoBlanks(blank, ts)
    ensures TakeAll(m, blank, ts).Some? <==> |multiset(ts) - m[blank := 0]| <= m[blank]
    decreases |ts|
  {
    if ts == [] {
      assert multiset(ts) - m[blank := 0] == multiset{};
    } else {
      hide TakeAll, NoBlanks;
      var rest, t := ts[..|ts| - 1], ts[|ts| - 1];
      LastFirst(m, blank, ts);
      if m[t] > 0 {
        TakeExact(m - multiset{t}, blank, rest);
        OneListed(m, blank, multiset(rest), t);
      } else {
        OneBlank(m, blank, multiset(rest), t);
        if m[blank] > 0 {
          TakeExact(m - multiset{blank}, blank, rest);
        }
      }
    }
  }

  lemma LastFirst(m: multiset<Tile>, blank: Tile, ts: seq<Tile>)
    requires NoBlanks(blank, ts) && ts != []
    ensures var rest, t := ts[..|ts| - 1], ts[|ts| - 1];
            && t != blank && NoBlanks(blank, rest) && multiset(ts) == multiset(rest) + multiset{t}
            && TakeAll(m, blank, ts) == if m[t] > 0 then TakeAll(m - multiset{t}, blank, rest)
                                        else if m[blank] > 0 then TakeAll(m - multiset{blank}, blank, rest) else None
  {
    assert ts == ts[..|ts| - 1] + [ts[|ts| - 1]];
  }

  lemma OneListed(m: multiset<Tile>, blank: Tile, rest: multiset<Tile>, t: Tile)
    requires m[t] > 0 && t != blank
    ensures (rest + multiset{t}) - m[blank := 0] == rest - (m - multiset{t})[blank := 0]
  {}

  lemma OneBlank(m: multiset<Tile>, blank: Tile, rest: multiset<Tile>, t: Tile)
    requires m[t] == 0
    ensures (rest + multiset{t}) - m[blank := 0] == (rest - m[blank := 0]) + multiset{t}
    ensures m[blank] > 0 ==> (m - multiset{blank})[blank := 0] == m[blank := 0]
  {}

  /** Taking `b` and then `t` is taking the longer block. */
  lemma TakeMore(m: multiset<Tile>, blank: Tile, b: seq<Tile>, t: Tile)
    requires NoBlanks(blank, b) && t != blank
    ensures (TakeAll(m, blank, b).Some? && TakeTile(TakeAll(m, blank, b).value, blank, t).Some?)
            <==> |multiset(b + [t]) - m[blank := 0]| <= m[blank]
  {
    TakeExact(m, blank, [t] + b);
    assert multiset([t] + b) == multiset(b + [t]);
    TakeFront(m, blank, t, b);
  }

  lemma {:induction false} TakeFront(m: multiset<Tile>, blank: Tile, t: Tile, b: seq<Tile>)
    ensures TakeAll(m, blank, [t] + b).Some? <==>
            TakeAll(m, blank, b).Some? && TakeTile(TakeAll(m, blank, b).value, blank, t).Some?
    decreases |b|
  {
    hide TakeTile;
    if b == [] {
      assert [t] + b == [t] && [t][..0] == [];
    } else {
      var n := |b| - 1;
      var all := [t] + b;
      assert all[|all| - 1] == b[n] && all[..|all| - 1] == [t] + b[..n];
      var left := TakeTile(m, blank, b[n]);
      if left.Some? {
        TakeFront(left.value, blank, t, b[..n]);
      }
    }
  }

  lemma EmptyBlock(pat: Pat, blank: Tile, i: nat, ts: seq<Tile>)
    requires i < |pat| && pat[i].minMatched == 0 && UpTo(pat, blank, i, ts)
    ensures UpTo(pat, blank, i + 1, ts)
  {
    assert ts[..|ts|] == ts && ts[|ts|..] == [];
    assert Excess(pat[i], blank, []) == multiset{};
    assert Block(pat[i], blank, ts[|ts|..]);
  }

  /** If the latest tile may have been matched by element `i`, then the streak of `i` is part of a
      block for it and the tiles before the streak are blocks for the elements before it. */
  lemma {:induction false} StreakMatches(pat: Pat, blank: Tile, hist: seq<ElemSet>, ts: seq<Tile>, i: nat)
    requires Traced(pat, blank, hist, ts) && NoBlanks(blank, ts)
    requires ts != [] && i in hist[|hist| - 1]
    ensures i < |pat| && var n := |ts| - Streak(hist, i);
            Part(Raised(pat)[i], blank, ts[n..]) && UpTo(Raised(pat), blank, i, ts[..n])
    decreases |ts|, 0, 0
  {
    hide Part, UpTo, Traced, Live, Matched, RaisedElem;
    LatestTried(pat, blank, hist, ts, i);
    var k := |ts| - 1;
    var h, prior, t := hist[..k], ts[..k], ts[k];
    var c := Streak(h, i);
    if h != [] && i in h[k - 1] {
      StreakMatches(pat, blank, h, prior, i);
    } else {
      LiveReached(pat, blank, h, prior, i);
      assert prior[..k] == prior;
    }
    PartMore(pat, blank, h, prior, i, t);
    assert ts[..k - c] == prior[..k - c] && ts[k - c..] == prior[k - c..] + [t];
  }

  lemma LatestTried(pat: Pat, blank: Tile, hist: seq<ElemSet>, ts: seq<Tile>, i: nat)
    requires Traced(pat, blank, hist, ts) && ts != [] && NoBlanks(blank, ts)
    requires |hist| == |ts| ==> i in hist[|hist| - 1]
    ensures |hist| == |ts| && i < |pat|
    ensures var k := |ts| - 1;
            && Traced(pat, blank, hist[..k], ts[..k]) && NoBlanks(blank, ts[..k]) && ts[k] != blank
            && Live(pat, hist[..k], i) && Matched(pat, blank, hist[..k], ts[..k], i, ts[k])
  {
    hide Live, Matched;
    assert i in Next(pat, blank, hist[..|ts| - 1], ts[..|ts| - 1], ts[|ts| - 1]);
  }

  /** One more tile for the block. */
  lemma PartMore(pat: Pat, blank: Tile, hist: seq<ElemSet>, ts: seq<Tile>, i: nat, t: Tile)
    requires i < |pat| && |hist| == |ts| && Matched(pat, blank, hist, ts, i, t)
    requires NoBlanks(blank, ts) && t != blank
    requires Streak(hist, i) > 0 ==> Part(Raised(pat)[i], blank, ts[|ts| - Streak(hist, i)..])
    ensures Part(Raised(pat)[i], blank, ts[|ts| - Streak(hist, i)..] + [t])
  {
    hide TakeAll, TakeTile, Part, Streak, Fits, RaisedElem;
    PartGrows(pat[i], blank, ts[|ts| - Streak(hist, i)..], t);
  }

  lemma PartGrows(elem: PatElem, blank: Tile, b: seq<Tile>, t: Tile)
    requires Fits(elem, blank, t) && (b == [] || |b| + 1 <= elem.maxMatched) && NoBlanks(blank, b) && t != blank
    requires elem.single ==> TakeAll(elem.tiles, blank, b).Some? && TakeTile(TakeAll(elem.tiles, blank, b).value, blank, t).Some?
    requires b != [] ==> Part(RaisedElem(elem), blank, b)
    ensures Part(RaisedElem(elem), blank, b + [t])
  {
    hide TakeAll, TakeTile;
    TakeMore(elem.tiles, blank, b, t);
  }

  /** An element that is tried afresh has all the tiles so far matched before it. */
  lemma {:induction false} LiveReached(pat: Pat, blank: Tile, hist: seq<ElemSet>, ts: seq<Tile>, i: nat)
    requires Traced(pat, blank, hist, ts) && NoBlanks(blank, ts)
    requires i <= |pat| && Live(pat, hist, i) && (hist != [] ==> i !in hist[|hist| - 1])
    ensures UpTo(Raised(pat), blank, i, ts)
    decreases |ts|, 1, i
  {
    hide Part, Traced;
    TracedLength(pat, blank, hist, ts);
    if i > 0 {
      if hist != [] && i - 1 in hist[|hist| - 1] {
        StreakMatches(pat, blank, hist, ts, i - 1);
        var n := |ts| - Streak(hist, i - 1);
        assert Block(Raised(pat)[i - 1], blank, ts[n..]);
      } else {
        LiveReached(pat, blank, hist, ts, i - 1);
        EmptyBlock(Raised(pat), blank, i - 1, ts);
      }
    }
  }

  lemma TracedLength(pat: Pat, blank: Tile, hist: seq<ElemSet>, ts: seq<Tile>)
    requires Traced(pat, blank, hist, ts)
    ensures |hist| == |ts|
  {}

  lemma {:induction false} SkipOptional(pat: Pat, blank: Tile, i: nat, n: nat, ts: seq<Tile>)
    requires i <= n <= |pat| && UpTo(pat, blank, i, ts) && forall k :: i <= k < n ==> pat[k].minMatched == 0
    ensures UpTo(pat, blank, n, ts)
    decreases n - i
  {
    if i < n {
      EmptyBlock(pat, blank, i, ts);
      SkipOptional(pat, blank, i + 1, n, ts);
    }
  }

  /** The last block of `ts` is within the limits of its own element, and only optional ones are
      left; earlier limits of zero may have let one tile through. */
  ghost predicate EndsWithin(pat: Pat, blank: Tile, ts: seq<Tile>) {
    exists i: nat, n: nat :: i < |pat| && n < |ts| && UpTo(Raised(pat), blank, i, ts[..n]) && Block(pat[i], blank, ts[n..])
                             && forall k :: i < k < |pat| ==> pat[k].minMatched == 0
  }

  lemma BlockWithin(pat: Pat, blank: Tile, i: nat, b: seq<Tile>)
    requires i < |pat| && Part(Raised(pat)[i], blank, b) && pat[i].minMatched <= |b| <= pat[i].maxMatched
    ensures Block(pat[i], blank, b)
  {}

  /** What the filter lets through and calls finished really matches the pattern, but that a limit
      of zero tiles lets one through, unless it is the last that is needed. */
  lemma FilterSound(pat: Pat, blank: Tile, hist: seq<ElemSet>, ts: seq<Tile>)
    requires Traced(pat, blank, hist, ts) && NoBlanks(blank, ts)
    requires hist != [] && Finished(pat, hist)
    ensures Matches(Raised(pat), blank, ts) && EndsWithin(pat, blank, ts)
    ensures PositiveMax(pat) ==> Matches(pat, blank, ts)
  {
    hide Part, Traced, UpTo, Block;
    TracedLength(pat, blank, hist, ts);
    var i := LastIn(pat, hist[|hist| - 1], |pat|).value;
    StreakMatches(pat, blank, hist, ts, i);
    BlockWithin(pat, blank, i, ts[|ts| - Streak(hist, i)..]);
    BlockRaised(pat, blank, i, ts[|ts| - Streak(hist, i)..]);
    LastBlock(Raised(pat), blank, i, ts, |ts| - Streak(hist, i));
    SkipOptional(Raised(pat), blank, i + 1, |pat|, ts);
    NothingRaised(pat);
  }

  lemma BlockRaised(pat: Pat, blank: Tile, i: nat, b: seq<Tile>)
    requires i < |pat| && Part(Raised(pat)[i], blank, b) && pat[i].minMatched <= |b|
    ensures Block(Raised(pat)[i], blank, b)
  {}

  lemma NothingRaised(pat: Pat)
    ensures PositiveMax(pat) ==> Raised(pat) == pat
  {}

  lemma LastBlock(pat: Pat, blank: Tile, i: nat, ts: seq<Tile>, n: nat)
    requires i < |pat| && n <= |ts| && Block(pat[i], blank, ts[n..]) && UpTo(pat, blank, i, ts[..n])
    ensures UpTo(pat, blank, i + 1, ts)
  {}

  /** The assertion in countPrevOccurs: taking back the tiles of a streak never runs out. */
  lemma StreakTakes(pat: Pat, blank: Tile, hist: seq<ElemSet>, ts: seq<Tile>, i: nat)
    requires Traced(pat, blank, hist, ts) && NoBlanks(blank, ts) && i < |pat| && pat[i].single
    ensures |hist| == |ts| && TakeAll(pat[i].tiles, blank, ts[|ts| - Streak(hist, i)..]).Some?
  {
    hide TakeAll, TakeTile, Live, Traced, Fits, Next;
    TracedLength(pat, blank, hist, ts);
    if Streak(hist, i) > 0 {
      var k := |ts| - 1;
      var h, prior, t := hist[..k], ts[..k], ts[k];
      LatestTried(pat, blank, hist, ts, i);
      StreakEnd(hist, ts, i);
      MatchedTakes(pat, blank, h, prior, i, t);
      hide Streak, Matched, NoBlanks;
      TakesMore(pat[i], blank, prior[k - Streak(h, i)..], t);
    } else {
      assert ts[|ts|..] == [];
      TakeNone(pat[i].tiles, blank);
    }
  }

  lemma TakeNone(m: multiset<Tile>, blank: Tile)
    ensures TakeAll(m, blank, []).Some?
  {}

  /** The tiles of a streak are those of the streak before it and the latest. */
  lemma StreakEnd(hist: seq<ElemSet>, ts: seq<Tile>, i: nat)
    requires |hist| == |ts| > 0 && Streak(hist, i) > 0
    ensures var k := |ts| - 1; ts[|ts| - Streak(hist, i)..] == ts[..k][k - Streak(hist[..k], i)..] + [ts[k]]
  {}

  lemma MatchedTakes(pat: Pat, blank: Tile, hist: seq<ElemSet>, ts: seq<Tile>, i: nat, t: Tile)
    requires i < |pat| && |hist| == |ts| && pat[i].single && Matched(pat, blank, hist, ts, i, t) && NoBlanks(blank, ts)
    ensures var b := ts[|ts| - Streak(hist, i)..];
            && NoBlanks(blank, b) && TakeAll(pat[i].tiles, blank, b).Some?
            && TakeTile(TakeAll(pat[i].tiles, blank, b).value, blank, t).Some?
  {
    hide TakeAll, TakeTile, Streak, Fits;
  }

  lemma TakesMore(elem: PatElem, blank: Tile, b: seq<Tile>, t: Tile)
    requires NoBlanks(blank, b) && t != blank
    requires TakeAll(elem.tiles, blank, b).Some? && TakeTile(TakeAll(elem.tiles, blank, b).value, blank, t).Some?
    ensures TakeAll(elem.tiles, blank, b + [t]).Some?
  {
    hide TakeAll, TakeTile;
    TakeMore(elem.tiles, blank, b, t);
    TakeExact(elem.tiles, blank, b + [t]);
  }

  // ----- where it falls short ---------------------------------------------------------------

  /** A limit of zero does not hold: `[a]{0}[b]` lets "ab" through, which it does not match. */
  lemma ZeroMaxSlips(a: Tile, b: Tile, blank: Tile)
    requires a != b && a != blank && b != blank
    ensures var pat := [PatElem(0, 0, multiset{a}, false), PatElem(1, 1, multiset{b}, false)];
            Traced(pat, blank, [{0}, {1}], [a, b]) && Finished(pat, [{0}, {1}]) && !Matches(pat, blank, [a, b])
  {
    var pat := [PatElem(0, 0, multiset{a}, false), PatElem(1, 1, multiset{b}, false)];
    ZeroMaxFirst(pat, a, b, blank);
    ZeroMaxSecond(pat, a, b, blank);
    var hist: seq<ElemSet>, ts: seq<Tile> := [{0}, {1}], [a, b];
    assert hist[..1] == [{0}] && ts[..1] == [a] && hist[..1][..0] == [] && ts[..1][..0] == [];
    assert Traced(pat, blank, [{0}], [a]) by { assert [{0}][..0] == [] && [a][..0] == []; }
    forall n | 0 <= n <= 2 && Block(pat[1], blank, ts[n..])
      ensures !UpTo(pat, blank, 1, ts[..n])
    {
      forall m | 0 <= m <= |ts[..n]| && Block(pat[0], blank, ts[..n][m..])
        ensures ts[..n][..m] != []
      {}
    }
  }

  lemma ZeroMaxFirst(pat: Pat, a: Tile, b: Tile, blank: Tile)
    requires pat == [PatElem(0, 0, multiset{a}, false), PatElem(1, 1, multiset{b}, false)] && a != b && a != blank && b != blank
    ensures Next(pat, blank, [], [], a) == {0}
  {
    assert Live(pat, [], 0) && Matched(pat, blank, [], [], 0, a) && !Matched(pat, blank, [], [], 1, a);
  }

  lemma ZeroMaxSecond(pat: Pat, a: Tile, b: Tile, blank: Tile)
    requires pat == [PatElem(0, 0, multiset{a}, false), PatElem(1, 1, multiset{b}, false)] && a != b && a != blank && b != blank
    ensures Next(pat, blank, [{0}], [a], b) == {1}
  {
    assert Streak([{0}], 0) == 1 && Streak([{0}], 1) == 0;
    assert Live(pat, [{0}], 0) && Live(pat, [{0}], 1);
    assert !Matched(pat, blank, [{0}], [a], 0, b) && Matched(pat, blank, [{0}], [a], 1, b);
  }

  /** Nor does the filter let through all it should: in `[ab]{1,2}[ab]` the second element cannot
      start afresh on a tile that follows one it may have matched already, so "aab" is stopped. */
  lemma MatchMissed(a: Tile, b: Tile, blank: Tile)
    requires a != b && a != blank && b != blank
    ensures var pat := [PatElem(1, 2, multiset{a, b}, false), PatElem(1, 1, multiset{a, b}, false)];
            && Matches(pat, blank, [a, a, b])
            && Next(pat, blank, [], [], a) == {0} && Next(pat, blank, [{0}], [a], a) == {0, 1}
            && Next(pat, blank, [{0}, {0, 1}], [a, a], b) == {}
  {
    hide Matches;
    MissedMatches(a, b, blank);
    var pat := [PatElem(1, 2, multiset{a, b}, false), PatElem(1, 1, multiset{a, b}, false)];
    var h1: seq<ElemSet>, h2: seq<ElemSet> := [{0}], [{0}, {0, 1}];
    assert h2[..1] == h1 && h1[..0] == [];
    assert Streak(h1, 0) == 1 && Streak(h1, 1) == 0;
    assert Streak(h2, 0) == 2 && Streak(h2, 1) == 1;
    assert Live(pat, [], 0) && Live(pat, h1, 0) && Live(pat, h1, 1);
  }

  lemma MissedMatches(a: Tile, b: Tile, blank: Tile)
    requires a != b && a != blank && b != blank
    ensures Matches([PatElem(1, 2, multiset{a, b}, false), PatElem(1, 1, multiset{a, b}, false)], blank, [a, a, b])
  {
    var pat := [PatElem(1, 2, multiset{a, b}, false), PatElem(1, 1, multiset{a, b}, false)];
    var ts: seq<Tile> := [a, a, b];
    assert UpTo(pat, blank, 0, ts[..2][..0]) && ts[..2][0..] == [a, a];
    assert Block(pat[0], blank, ts[..2][0..]) && Block(pat[1], blank, ts[2..]);
    assert UpTo(pat, blank, 1, ts[..2]);
  }
}
