/** The dictionary iterator (dictiter.c): a stack of edges moved forwards and backwards through the
    word graph, and the prefix index that takes it near a wanted position. */
module DictIters {
  import opened Wrappers
  import opened Dawg
  import opened PatFilter
  import opened DictPaths
  import opened DictWords
  import opened DictIndex

  const MAX_COLS_DICT: nat := 15

  /** initIter's limits: `minmax` as asked for, brought within 2 and MAX_COLS_DICT. */
  function Limits(minmax: Option<(nat, nat)>): (r: (nat, nat))
    ensures 2 <= r.0 <= r.1 <= MAX_COLS_DICT
    ensures minmax.None? ==> r == (2, MAX_COLS_DICT)
    ensures minmax.Some? && 2 <= minmax.value.0 <= minmax.value.1 <= MAX_COLS_DICT ==> r == minmax.value
    ensures minmax.Some? ==> r.1 == if 2 <= minmax.value.1 <= MAX_COLS_DICT then minmax.value.1 else MAX_COLS_DICT
    ensures minmax.Some? ==> r.0 == if 2 <= minmax.value.0 <= r.1 then minmax.value.0 else 2
  {
    var min := if minmax.None? then 0 else if minmax.value.0 < 2 then 2 else minmax.value.0;
    var max := if minmax.None? then 0 else minmax.value.1;
    var max' := if max < 2 || MAX_COLS_DICT < max then MAX_COLS_DICT else max;
    (if min < 2 || max' < min then 2 else min, max')
  }

  /** No edge at the top level is accepting, as firstWord asserts. */
  ghost predicate NoOneTileWords(d: Dict) {
    d.topEdge.Some? ==> forall k: nat :: InRun(d, d.topEdge.value, k) ==> !d.edges[k].accepting
  }

  /** What is still to be visited, and what has been. */
  ghost function Ahead(f: Filter, s: Stack): seq<Stack>
    requires FilterOk(f) && (s == [] || IsPath(f, s))
  {
    Words(f, After(f, s))
  }

  ghost function Behind(f: Filter, s: Stack): seq<Stack>
    requires FilterOk(f) && (s == [] || IsPath(f, s))
  {
    if s == [] then [] else Words(f, Before(f, s))
  }

  /** One use of a tile is taken off its count, or off the blanks' when that is used up. */
  method TakeBack(prevs: multiset<Tile>, blank: Tile, tile: Tile) returns (left: multiset<Tile>)
    requires TakeTile(prevs, blank, tile).Some?
    ensures left == TakeTile(prevs, blank, tile).value
  {
    var used := tile;
    if prevs[used] == 0 {
      used := blank;
    }
    assert 0 < prevs[used];
    left := prevs - multiset{used};
  }

  lemma StreakStep(hist: seq<ElemSet>, i: nat, ii: nat)
    requires ii < |hist| && i in hist[ii]
    ensures Streak(hist[..ii + 1], i) == 1 + Streak(hist[..ii], i)
  {
    assert hist[..ii + 1][..ii] == hist[..ii];
  }

  /** Of the block `b` all but the first `n` tiles have been taken. */
  ghost predicate Taken(m: multiset<Tile>, left: multiset<Tile>, blank: Tile, b: seq<Tile>, n: int) {
    0 <= n <= |b| && TakeAll(m, blank, b).Some? && TakeAll(m, blank, b) == TakeAll(left, blank, b[..n])
  }

  lemma NothingTaken(m: multiset<Tile>, blank: Tile, b: seq<Tile>)
    requires TakeAll(m, blank, b).Some?
    ensures Taken(m, m, blank, b, |b|)
  {
    assert b[..|b|] == b;
  }

  lemma TakeStep(m: multiset<Tile>, left: multiset<Tile>, blank: Tile, b: seq<Tile>, n: int)
    requires Taken(m, left, blank, b, n) && n > 0
    ensures n <= |b| && TakeTile(left, blank, b[n - 1]).Some?
    ensures Taken(m, TakeTile(left, blank, b[n - 1]).value, blank, b, n - 1)
  {
    assert b[..n][..n - 1] == b[..n - 1];
  }

  lemma AllTaken(m: multiset<Tile>, left: multiset<Tile>, blank: Tile, b: seq<Tile>)
    requires Taken(m, left, blank, b, 0)
    ensures TakeAll(m, blank, b) == Some(left)
  {}

  lemma NoMore(hist: seq<ElemSet>, i: nat, ii: nat)
    requires ii <= |hist| && (ii == 0 || i !in hist[ii - 1])
    ensures Streak(hist[..ii], i) == 0
  {}

  /** The loop of countPrevOccurs, from the top of the stack down. */
  method CountStreak(d: Dict, s: Stack, p: nat, i: nat, tiles: Option<multiset<Tile>>)
    returns (result: nat, prevs: Option<multiset<Tile>>)
    requires tiles.Some? ==> TakeAll(tiles.value, d.blankTile, Word(d, s)[|s| - Streak(Hist(s, p), i)..]).Some?
    ensures result == Streak(Hist(s, p), i)
    ensures prevs == if tiles.None? then None else TakeAll(tiles.value, d.blankTile, Word(d, s)[|s| - result..])
  {
    hide Streak, TakeAll, TakeTile, Taken, Hist, Word;
    ghost var blank, hist := d.blankTile, Hist(s, p);
    ghost var all := Streak(hist, i);
    ghost var b := Word(d, s)[|s| - all..];
    if tiles.Some? { NothingTaken(tiles.value, blank, b); }
    result, prevs := 0, tiles;
    var ii := |s|;
    assert hist[..ii] == hist;
    while ii > 0 && p < |s[ii - 1].sets| && i in s[ii - 1].sets[p]
      invariant ii == |s| - result && result <= all
      invariant all == result + Streak(hist[..ii], i)
      invariant prevs.Some? == tiles.Some?
      invariant tiles.Some? ==> Taken(tiles.value, prevs.value, blank, b, all - result)
    {
      ii := ii - 1;
      StreakStep(hist, i, ii);
      if prevs.Some? {
        TakeStep(tiles.value, prevs.value, blank, b, all - result);
        assert b[all - result - 1] == TileOf(d, s[ii].edge);
        var left := TakeBack(prevs.value, d.blankTile, TileOf(d, s[ii].edge));
        prevs := Some(left);
      }
      result := result + 1;
    }
    NoMore(hist, i, ii);
    if tiles.Some? { AllTaken(tiles.value, prevs.value, blank, b); }
  }

  lemma PathTakes(f: Filter, s: Stack, p: nat, i: nat)
    requires FilterOk(f) && (s == [] || IsPath(f, s)) && p < |f.pats| && i < |f.pats[p]| && f.pats[p][i].single
    ensures TakeAll(f.pats[p][i].tiles, f.d.blankTile, Word(f.d, s)[|s| - Streak(Hist(s, p), i)..]).Some?
  {
    hide FilterOk, IsPath, Traced, NoBlanks, Streak, TakeAll;
    PathTraced(f, s, p);
    StreakTakes(f.pats[p], f.d.blankTile, Hist(s, p), Word(f.d, s), i);
  }

  class DictIter {
    const f: Filter
    const stack: array<Entry>
    var nEdges: nat
    var nWords: nat
    var position: int

    ghost predicate Valid()
      reads this, stack
    {
      && FilterOk(f) && f.max <= MAX_COLS_DICT && stack.Length == MAX_COLS_DICT && nEdges <= f.max
      && (nEdges == 0 || IsPath(f, stack[..nEdges]))
    }

    ghost function Entries(): (s: Stack)
      requires Valid()
      reads this, stack
      ensures |s| == nEdges && |s| <= f.max && (s == [] || IsPath(f, s))
    {
      stack[..nEdges]
    }

    // ----- the pattern filter ---------------------------------------------------------------

    /** countPrevOccurs.  If asked for, `prevs` is what the streak leaves of the tiles listed. */
    method CountPrevOccurs(p: nat, i: nat, wantPrevs: bool) returns (result: nat, prevs: Option<multiset<Tile>>)
      requires Valid() && p < |f.pats| && i < |f.pats[p]| && (wantPrevs ==> f.pats[p][i].single)
      ensures result == Streak(Hist(Entries(), p), i) && prevs.Some? == wantPrevs
      ensures wantPrevs ==>
                prevs == TakeAll(f.pats[p][i].tiles, f.d.blankTile, Word(f.d, Entries())[nEdges - result..])
    {
      hide IsPath, FilterOk, Streak, TakeAll, Hist, Word;
      ghost var s := Entries();
      if wantPrevs {
        PathTakes(f, s, p, i);
        result, prevs := CountStreak(f.d, stack[..nEdges], p, i, Some(f.pats[p][i].tiles));
      } else {
        result, prevs := CountStreak(f.d, stack[..nEdges], p, i, None);
      }
    }

    /** getMatchInfo: may element `i` take `tile` next? */
    method GetMatchInfo(p: nat, i: nat, prevs: Option<multiset<Tile>>, tile: Tile) returns (isOptional: bool, matched: bool)
      requires Valid() && p < |f.pats| && i < |f.pats[p]|
      requires f.pats[p][i].single == prevs.Some?
      requires prevs.Some? ==>
                 prevs == TakeAll(f.pats[p][i].tiles, f.d.blankTile,
                                  Word(f.d, Entries())[nEdges - Streak(Hist(Entries(), p), i)..])
                 && prevs.value <= f.pats[p][i].tiles
      ensures isOptional == (f.pats[p][i].minMatched == 0)
      ensures matched == Matched(f.pats[p], f.d.blankTile, Hist(Entries(), p), Word(f.d, Entries()), i, tile)
    {
      hide IsPath, FilterOk, TakeAll, Streak;
      var elem := f.pats[p][i];
      var usedTile := tile;
      matched := elem.tiles[usedTile] != 0;
      if matched && prevs.Some? {
        matched := 0 < prevs.value[usedTile];
      }
      if !matched {
        usedTile := f.d.blankTile;
        matched := elem.tiles[usedTile] != 0;
      }
      if matched && prevs.Some? {
        matched := 0 < prevs.value[usedTile];
      }
      isOptional := 0 == elem.minMatched;

      ghost var hist := Hist(Entries(), p);
      ghost var fits := matched;
      var usedCount := if matched then 1 else 0;
      var ii := nEdges;
      assert hist[..ii] == hist;
      while matched && ii > 0 && p < |stack[ii - 1].sets| && i in stack[ii - 1].sets[p]
        invariant ii <= nEdges
        invariant fits ==> usedCount == nEdges - ii + 1 && Streak(hist, i) == nEdges - ii + Streak(hist[..ii], i)
        invariant matched == (fits && (ii == nEdges || usedCount <= elem.maxMatched))
      {
        ii := ii - 1;
        StreakStep(hist, i, ii);
        usedCount := usedCount + 1;
        matched := matched && usedCount <= elem.maxMatched;
      }
      if matched { NoMore(hist, i, ii); }
    }

    /** patHasMatch on the edge at `k`: for each pattern, which elements its tile may match. */
    method PatHasMatch(k: nat) returns (r: Option<seq<ElemSet>>)
      requires Valid() && k < |f.d.edges|
      ensures r == HasMatch(f, Entries(), k)
    {
      hide Next, Hist, Word, IsPath, FilterOk;
      var result: seq<ElemSet> := [];
      var patIndx := 0;
      while patIndx < |f.pats|
        invariant patIndx <= |f.pats| && result == NextSets(f, Entries(), k)[..patIndx]
        invariant forall p :: 0 <= p < patIndx ==> result[p] != {}
      {
        var newElems := NextElems(patIndx, f.d.edges[k].tile);
        assert newElems == NextSets(f, Entries(), k)[patIndx];
        if newElems == {} {
          return None;
        }
        result := result + [newElems];
        patIndx := patIndx + 1;
      }
      assert NextSets(f, Entries(), k)[..patIndx] == NextSets(f, Entries(), k);
      return Some(result);
    }

    /** The inner loop of patHasMatch. */
    method NextElems(p: nat, tile: Tile) returns (newElems: ElemSet)
      requires Valid() && p < |f.pats|
      ensures newElems == Next(f.pats[p], f.d.blankTile, Hist(Entries(), p), Word(f.d, Entries()), tile)
    {
      hide IsPath, FilterOk, Matched, TakeAll, Streak, Hist, Word, Live, Old;
      FirstLive(f.pats[p], Hist(Entries(), p));
      var pat := f.pats[p];
      ghost var hist, ts := Hist(Entries(), p), Word(f.d, Entries());
      var oldElems := if nEdges == 0 then {0} else if p < |stack[nEdges - 1].sets| then stack[nEdges - 1].sets[p] else {};
      newElems := {};
      var i := 0;
      while oldElems != {} && i < |pat|
        invariant i <= |pat|
        invariant forall j :: j in newElems <==> 0 <= j < i && Live(pat, hist, j) && Matched(pat, f.d.blankTile, hist, ts, j, tile)
        invariant i in oldElems <==> Live(pat, hist, i)
        invariant forall j: nat :: j > i ==> (j in oldElems <==> j in Old(hist))
        decreases |pat| - i
      {
        LiveNext(pat, hist, i);
        if i in oldElems {
          var elem := pat[i];
          var count, prevs := CountPrevOccurs(p, i, elem.single);
          if count >= elem.minMatched {
            oldElems := oldElems + {i + 1};
          }
          if prevs.Some? { TakenWithin(elem.tiles, f.d.blankTile, ts[nEdges - count..]); }
          var isOptional, matched := GetMatchInfo(p, i, prevs, tile);
          if isOptional {
            oldElems := oldElems + {i + 1};
          }
          if matched {
            newElems := newElems + {i};
          }
          oldElems := oldElems - {i};
        }
        i := i + 1;
      }
      forall j | i <= j < |pat|
        ensures !Live(pat, hist, j)
      {
        DeadAfter(pat, hist, i, j);
      }
    }

    /** patMatchFinished. */
    method PatMatchFinished() returns (result: bool)
      requires Valid() && nEdges > 0
      ensures result == MatchFinished(f, Entries())
    {
      hide IsPath, FilterOk, Streak;
      result := true;
      var p := 0;
      while p < |f.pats|
        invariant p <= |f.pats| && result
        invariant forall q :: 0 <= q < p ==> Finished(f.pats[q], Hist(Entries(), q))
      {
        var pat := f.pats[p];
        ghost var hist := Hist(Entries(), p);
        var finalSet := if p < |stack[nEdges - 1].sets| then stack[nEdges - 1].sets[p] else {};
        assert finalSet == hist[|hist| - 1];
        var n: nat := |pat|;
        while n > 0 && n - 1 !in finalSet && pat[n - 1].minMatched == 0
          invariant n <= |pat| && LastIn(pat, finalSet, |pat|) == LastIn(pat, finalSet, n)
        {
          n := n - 1;
        }
        if n == 0 || n - 1 !in finalSet {
          assert !Finished(pat, hist);
          return false;
        }
        var count, _ := CountPrevOccurs(p, n - 1, false);
        if !(pat[n - 1].minMatched <= count <= pat[n - 1].maxMatched) {
          assert !Finished(pat, hist);
          return false;
        }
        p := p + 1;
      }
    }

    /** ACCEPT_ITER. */
    method AcceptIter() returns (r: bool)
      requires Valid() && nEdges > 0
      ensures stack[nEdges - 1].edge < |f.d.edges|
      ensures r == (f.d.edges[stack[nEdges - 1].edge].accepting && MatchFinished(f, Entries()))
    {
      hide MatchFinished;
      PathParts(f, Entries());
      r := f.d.edges[stack[nEdges - 1].edge].accepting;
      if r {
        r := PatMatchFinished();
      }
    }

    /** The test after every push or pop: is the stack on a word of sufficient length? */
    method OnWord() returns (r: bool)
      requires Valid()
      ensures r == Reported(f, Entries()) && (r ==> nEdges > 0)
    {
      hide IsPath, MatchFinished;
      r := false;
      if f.min <= nEdges {
        r := AcceptIter();
      }
    }

    // ----- the stack ------------------------------------------------------------------------

    method PushEdge(e: Entry)
      requires Valid() && nEdges < f.max && IsPath(f, Entries() + [e])
      modifies stack, `nEdges
      ensures Valid() && Entries() == old(Entries()) + [e]
    {
      hide IsPath, FilterOk;
      ghost var before := Entries();
      stack[nEdges] := e;
      nEdges := nEdges + 1;
      assert stack[..nEdges] == before + [e];
    }

    method PopEdge() returns (edge: nat)
      requires Valid() && nEdges > 0
      modifies `nEdges
      ensures Valid() && Entries() == old(Entries())[..old(nEdges) - 1] && edge == old(Entries())[old(nEdges) - 1].edge
    {
      ghost var before := Entries();
      PathParts(f, before);
      nEdges := nEdges - 1;
      edge := stack[nEdges].edge;
      assert stack[..nEdges] == before[..nEdges];
    }

    /** nextPeerMatch. */
    method NextPeerMatch(from: nat) returns (e: Option<Entry>)
      requires Valid() && from < |f.d.edges|
      ensures e == NextPeer(f, Entries(), from)
    {
      hide HasMatch, IsPath;
      var edge := from;
      while true
        invariant edge < |f.d.edges| && NextPeer(f, Entries(), from) == NextPeer(f, Entries(), edge)
        decreases |f.d.edges| - edge
      {
        var sets := PatHasMatch(edge);
        if sets.Some? {
          return Some(Entry(edge, sets.value));
        }
        if f.d.edges[edge].last {
          return None;
        }
        edge := edge + 1;
      }
    }

    /** prevPeerMatch within the run that starts at `start`. */
    method PrevPeerMatch(from: nat, ghost start: nat) returns (e: Option<Entry>)
      requires Valid() && StartsRun(f.d, start) && InRun(f.d, start, from)
      ensures e == PrevPeer(f, Entries(), start, from)
    {
      hide HasMatch, IsPath;
      var edge := from;
      while true
        invariant start <= edge <= from && PrevPeer(f, Entries(), start, from) == PrevPeer(f, Entries(), start, edge)
        decreases edge
      {
        var sets := PatHasMatch(edge);
        if sets.Some? {
          return Some(Entry(edge, sets.value));
        }
        FirstIsStart(f.d, start, edge);
        if StartsRun(f.d, edge) {
          return None;
        }
        edge := edge - 1;
      }
    }

    // ----- forwards -------------------------------------------------------------------------

    /** The first half of nextWord's loop: try a longer path. */
    method Descend() returns (pushed: bool)
      requires Valid() && nEdges > 0
      modifies stack, `nEdges
      ensures Valid()
      ensures pushed ==> nEdges > 0 && After(f, old(Entries())) == [Entries()] + After(f, Entries())
      ensures !pushed ==> Entries() == old(Entries()) && After(f, Entries()) == Later(f, Entries())
    {
      hide IsPath, HasMatch, After, Later, NextPeer;
      ghost var s := Entries();
      PathParts(f, s);
      pushed := false;
      if nEdges < f.max {
        var next := Follow(f.d, stack[nEdges - 1].edge);
        if next.Some? {
          AfterChild(f, s);
          FollowOk(f.d, stack[nEdges - 1].edge);
          var e := NextPeerMatch(next.value);
          if e.Some? {
            PushEdge(e.value);
            return true;
          }
          return;
        }
      }
      ChildlessAfter(f, s);
    }

    /** The second half: leave finished paths and try the next sibling. */
    method MoveOn() returns (pushed: bool)
      requires Valid() && nEdges > 0
      modifies stack, `nEdges
      ensures Valid()
      ensures pushed ==> nEdges > 0 && Later(f, old(Entries())) == [Entries()] + After(f, Entries())
      ensures !pushed ==> nEdges == 0 && Later(f, old(Entries())) == []
    {
      hide IsPath, HasMatch, After, Later, NextPeer, FilterOk, Siblings;
      ghost var all := Later(f, Entries());
      PathParts(f, Entries());
      while nEdges > 0 && f.d.edges[stack[nEdges - 1].edge].last
        invariant Valid() && Later(f, Entries()) == all
        invariant nEdges > 0 ==> stack[nEdges - 1].edge < |f.d.edges|
        decreases nEdges
      {
        LaterSibling(f, Entries());
        PathParts(f, Entries());
        var _ := PopEdge();
      }
      pushed := MoveUp();
    }

    /** The second loop of the same: to the next sibling of the nearest level that has one. */
    method MoveUp() returns (pushed: bool)
      requires Valid()
      modifies stack, `nEdges
      ensures Valid()
      ensures pushed ==> nEdges > 0 && Later(f, old(Entries())) == [Entries()] + After(f, Entries())
      ensures !pushed ==> nEdges == 0 && Later(f, old(Entries())) == []
    {
      hide IsPath, HasMatch, After, Later, NextPeer, FilterOk, Siblings;
      ghost var all := Later(f, Entries());
      while 0 < nEdges
        invariant Valid() && Later(f, Entries()) == all
        decreases nEdges
      {
        LaterSibling(f, Entries());
        PathParts(f, Entries());
        var edge := PopEdge();
        if !f.d.edges[edge].last {
          var e := NextPeerMatch(edge + 1);
          if e.Some? {
            PushEdge(e.value);
            return true;
          }
        }
      }
      NothingLater(f);
      return false;
    }

    /** nextWord: to the next word there is, or off the end. */
    method NextWord() returns (success: bool)
      requires Valid()
      modifies stack, `nEdges
      ensures Valid()
      ensures success == (Ahead(f, old(Entries())) != [])
      ensures success ==> nEdges > 0 && Ahead(f, old(Entries())) == [Entries()] + Ahead(f, Entries())
      ensures !success ==> nEdges == 0
    {
      hide IsPath, HasMatch, After, Later, Reported, Words;
      ghost var all := Ahead(f, Entries());
      success := false;
      while 0 < nEdges && !success
        invariant Valid()
        invariant success ==> nEdges > 0 && all == [Entries()] + Ahead(f, Entries())
        invariant !success ==> all == Ahead(f, Entries())
        decreases |After(f, Entries())|, nEdges
      {
        ghost var s := Entries();
        var pushed := Descend();
        if !pushed {
          pushed := MoveOn();
        }
        if pushed {
          AheadStep(f, s, Entries());
          success := OnWord();
        } else {
          NothingAhead(f, s);
          NothingLater(f);
        }
      }
      NothingLater(f);
    }

    /** The top edge that firstWord finds, which it looks for before it empties the stack. */
    ghost function TopPeer(): Option<Entry>
      requires Valid()
      reads this, stack
    {
      if f.d.topEdge.None? || f.d.topEdge.value >= |f.d.edges| then None else NextPeer(f, Entries(), f.d.topEdge.value)
    }

    /** firstWord.  What the stack held decides which top edge is found, and with what match sets:
        the sets must be right for a first tile.  Nothing is found: no word is answered and the stack
        stays.  Else the iterator goes to the first word from that edge on, which is the first of
        all if the edge is the one found from an empty stack. */
    method FirstWord() returns (success: bool)
      requires Valid() && NoOneTileWords(f.d)
      requires TopPeer().Some? ==> HasMatch(f, [], TopPeer().value.edge) == Some(TopPeer().value.sets)
      modifies stack, `nEdges
      ensures Valid()
      ensures old(TopPeer()).None? ==> !success && Entries() == old(Entries())
      ensures old(TopPeer()).Some? ==>
                && IsPath(f, [old(TopPeer()).value]) && success == (Ahead(f, [old(TopPeer()).value]) != [])
                && (success ==> nEdges > 0 && Ahead(f, [old(TopPeer()).value]) == [Entries()] + Ahead(f, Entries()))
                && (!success ==> nEdges == 0)
      ensures old(TopPeer()) == FreshPeer(f) ==>
                && success == (WordList(f) != []) && (success ==> nEdges > 0 && WordList(f) == [Entries()] + Ahead(f, Entries()))
    {
      hide IsPath, HasMatch, After, Later, Reported, Words, Sub, NextPeer;
      FirstPath(f);
      if f.d.topEdge.None? {
        return false;
      }
      var top := f.d.topEdge.value;
      var e := NextPeerMatch(top);
      success := e.Some?;
      if success {
        TopIsPath(f, Entries(), e.value);
        nEdges := 0;
        assert stack[..0] == [];
        assert [] + [e.value] == [e.value];
        PushEdge(e.value);
        var accepted := AcceptIter();
        if accepted {
          assert false;
        } else {
          success := NextWord();
        }
      }
    }

    /** countWordsIn. */
    method CountWords() returns (count: nat)
      requires Valid() && nEdges == 0 && NoOneTileWords(f.d)
      modifies stack, `nEdges
      ensures Valid() && nEdges == 0 && count == |WordList(f)|
    {
      hide IsPath, HasMatch, After, Later, Reported, Words, Sub, NextPeer;
      if FreshPeer(f).Some? { FreshFits(f); }
      assert Entries() == [];
      count := 0;
      var ok := FirstWord();
      while ok
        invariant Valid() && (!ok ==> nEdges == 0 && count == |WordList(f)|)
        invariant ok ==> nEdges > 0 && |WordList(f)| == count + 1 + |Ahead(f, Entries())|
        decreases ok, |Ahead(f, Entries())|
      {
        count := count + 1;
        ok := NextWord();
      }
    }

    // ----- backwards ------------------------------------------------------------------------

    /** The last sibling. */
    method LastOfRun(from: nat, ghost start: nat) returns (edge: nat)
      requires FilterOk(f) && start <= from < |f.d.edges| && InRun(f.d, start, from)
      ensures start <= edge < |f.d.edges| && InRun(f.d, start, edge) && f.d.edges[edge].last
    {
      hide InRun, WellFormed;
      edge := from;
      while !f.d.edges[edge].last
        invariant start <= edge < |f.d.edges| && InRun(f.d, start, edge)
        decreases |f.d.edges| - edge
      {
        RunStep(f.d, start, edge);
        edge := edge + 1;
      }
    }

    /** pushLastEdges: down the last edges that pass, from the run of `from`. */
    method PushLastEdges(from: nat)
      requires Valid() && RunStarts(f.d) && nEdges < f.max && StartAt(f, Entries(), from)
      modifies stack, `nEdges
      ensures Valid() && Upper(f, Entries()) == Upper(f, old(Entries())) + Sub(f, old(Entries()), Start(f, old(Entries())).value)
    {
      hide IsPath, HasMatch, Upper, Sub, Before, Children, PrevPeer, StartAt, InRun, RunStarts, WellFormed, StartsRun;
      StartAtRun(f, Entries(), from);
      ghost var all := Upper(f, Entries()) + Sub(f, Entries(), Start(f, Entries()).value);
      var edge: nat := from;
      while nEdges < f.max
        invariant Valid()
        invariant nEdges > 0 ==> stack[nEdges - 1].edge < |f.d.edges|
        invariant nEdges < f.max ==> StartAt(f, Entries(), edge) && Start(f, Entries()).Some? && Start(f, Entries()).value < |f.d.edges|
                                     && all == Upper(f, Entries()) + Sub(f, Entries(), Start(f, Entries()).value)
        invariant nEdges == f.max ==> all == Upper(f, Entries())
        decreases f.max - nEdges
      {
        ghost var s := Entries();
        StartAtRun(f, s, edge);
        ghost var start := Start(f, s).value;
        edge := LastOfRun(edge, start);
        LastChild(f, s, edge);
        var e := PrevPeerMatch(edge, start);
        if e.None? {
          assert all == Upper(f, s) + [];
          return;
        }
        PushEdge(e.value);
        AllAfter(f, Entries());
        var next := Follow(f.d, e.value.edge);
        if next.None? {
          return;
        }
        edge := next.value;
      }
    }

    /** One round of prevWord's loop: to the path visited just before, or off the front. */
    method StepBack()
      requires Valid() && RunStarts(f.d) && nEdges > 0
      modifies stack, `nEdges
      ensures Valid() && Upper(f, Entries()) == Before(f, old(Entries()))
    {
      hide IsPath, HasMatch, Upper, Sub, Before, Children, PrevPeer, StartAt, InRun, RunStarts;
      ghost var s := Entries();
      BeforeStep(f, s);
      ghost var p, start := s[..|s| - 1], Start(f, s[..|s| - 1]).value;
      RunOrder(f.d, start, s[|s| - 1].edge);
      RunAt(f, p);
      FirstIsStart(f.d, start, s[|s| - 1].edge);
      if StartsRun(f.d, stack[nEdges - 1].edge) {
        var _ := PopEdge();
        return;
      }
      var edge := PopEdge();
      edge := edge - 1;
      InRunLess(f.d, start, edge, edge + 1);
      var e := PrevPeerMatch(edge, start);
      if e.Some? {
        PushEdge(e.value);
        AllAfter(f, Entries());
        if nEdges < f.max {
          var next := Follow(f.d, e.value.edge);
          if next.Some? {
            PushLastEdges(next.value);
          }
        }
      }
    }

    /** prevWord: to the word before, or off the front. */
    method PrevWord() returns (success: bool)
      requires Valid() && RunStarts(f.d)
      modifies stack, `nEdges
      ensures Valid()
      ensures success == (Behind(f, old(Entries())) != [])
      ensures success ==> nEdges > 0 && Behind(f, old(Entries())) == Behind(f, Entries()) + [Entries()]
      ensures !success ==> nEdges == 0
    {
      hide IsPath, HasMatch, Upper, Before, Reported, Words, RunStarts;
      ghost var all := Behind(f, Entries());
      success := false;
      while 0 < nEdges && !success
        invariant Valid()
        invariant success ==> nEdges > 0 && all == Behind(f, Entries()) + [Entries()]
        invariant !success ==> all == Behind(f, Entries())
        decreases |Upper(f, Entries())|
      {
        ghost var s := Entries();
        StepBack();
        BehindStep(f, s, Entries());
        success := OnWord();
      }
    }

    /** di_lastWord's moves.  Some top edge must pass the patterns. */
    method LastWord() returns (success: bool)
      requires Valid() && RunStarts(f.d) && f.d.topEdge.Some? && NextPeer(f, [], f.d.topEdge.value).Some?
      modifies stack, `nEdges
      ensures Valid()
      ensures success == (WordList(f) != [])
      ensures success ==> nEdges > 0 && WordList(f) == Behind(f, Entries()) + [Entries()]
      ensures !success ==> nEdges == 0
    {
      hide IsPath, HasMatch, Upper, Before, MatchFinished, Words, RunStarts, Sub, NextPeer;
      while 0 < nEdges
        invariant Valid()
        decreases nEdges
      {
        var _ := PopEdge();
      }
      assert Entries() == [];
      TopStart(f);
      PushLastEdges(f.d.topEdge.value);
      WholeVisit(f, Entries());
      var accepting := AcceptIter();
      success := accepting && f.min <= nEdges && nEdges <= f.max;
      if !success {
        success := PrevWord();
      }
    }

    // ----- positions ------------------------------------------------------------------------

    /** The iterator stands on word `i` of its list. */
    ghost predicate At(i: int)
      requires Valid()
      reads this, stack
    {
      0 <= i < |WordList(f)| && Entries() == WordList(f)[i]
    }

    /** di_firstWord. */
    method DiFirstWord() returns (success: bool)
      requires Valid() && NoOneTileWords(f.d)
      requires TopPeer().Some? ==> HasMatch(f, [], TopPeer().value.edge) == Some(TopPeer().value.sets)
      modifies stack, `nEdges, `position
      ensures Valid() && position == if success then 0 else old(position)
      ensures old(TopPeer()).None? ==> !success && Entries() == old(Entries())
      ensures old(TopPeer()) == FreshPeer(f) ==> success == (WordList(f) != []) && (success ==> At(0))
    {
      hide IsPath, HasMatch, WordList, Words, After, NextPeer;
      success := FirstWord();
      if success {
        position := 0;
      }
    }

    /** di_getNextWord. */
    method DiNextWord() returns (success: bool)
      requires Valid() && At(position)
      modifies stack, `nEdges, `position
      ensures Valid() && success == (old(position) + 1 < |WordList(f)|)
      ensures success ==> position == old(position) + 1 && At(position)
      ensures !success ==> nEdges == 0 && position == old(position)
    {
      hide IsPath, WordList, Words, After;
      AtPosition(f, position);
      success := NextWord();
      if success {
        position := position + 1;
      }
    }

    /** di_getPrevWord. */
    method DiPrevWord() returns (success: bool)
      requires Valid() && At(position) && RunStarts(f.d)
      modifies stack, `nEdges, `position
      ensures Valid() && success == (old(position) > 0)
      ensures success ==> position == old(position) - 1 && At(position)
      ensures !success ==> nEdges == 0 && position == old(position)
    {
      hide IsPath, WordList, Words, Before, RunStarts;
      AtPosition(f, position);
      success := PrevWord();
      if success {
        position := position - 1;
      }
    }

    /** di_lastWord. */
    method DiLastWord() returns (success: bool)
      requires Valid() && RunStarts(f.d) && f.d.topEdge.Some? && NextPeer(f, [], f.d.topEdge.value).Some?
      requires nWords == |WordList(f)|
      modifies stack, `nEdges, `position
      ensures Valid() && success == (WordList(f) != [])
      ensures success ==> position == nWords - 1 && At(position)
      ensures !success ==> nEdges == 0 && position == old(position)
    {
      hide IsPath, WordList, Words, Before, RunStarts, NextPeer;
      success := LastWord();
      if success {
        position := nWords - 1;
      }
    }

    /** An iterator not yet counted. */
    constructor Uncounted(f: Filter)
      requires FilterOk(f) && f.max <= MAX_COLS_DICT
      ensures Valid() && nEdges == 0 && fresh(stack) && this.f == f
    {
      this.f := f;
      stack := new Entry[MAX_COLS_DICT](_ => Entry(0, []));
      nEdges, position, nWords := 0, 0, 0;
    }

    /** initIter. */
    constructor (d: Dict, minmax: Option<(nat, nat)>, pats: seq<Pat>)
      requires WellFormed(d) && NoOneTileWords(d)
      ensures Valid() && nEdges == 0 && fresh(stack)
      ensures f == Filter(d, Limits(minmax).0, Limits(minmax).1, pats) && nWords == |WordList(f)|
      ensures pats == [] && minmax.None? ==> exists ws :: AreWords(d, 2, MAX_COLS_DICT, ws) && nWords == |ws|
      ensures pats == [] && minmax.Some? && 2 <= minmax.value.0 <= minmax.value.1 <= MAX_COLS_DICT ==>
                exists ws :: AreWords(d, minmax.value.0, minmax.value.1, ws) && nWords == |ws|
    {
      f := Filter(d, Limits(minmax).0, Limits(minmax).1, pats);
      stack := new Entry[MAX_COLS_DICT](_ => Entry(0, []));
      nEdges, position, nWords := 0, 0, 0;
      new;
      var n := CountWords();
      nWords := n;
      if pats == [] {
        SpellingsAre(f);
      }
    }
  }

  lemma FirstLive(pat: Pat, hist: seq<ElemSet>)
    ensures Live(pat, hist, 0) == (0 in Old(hist))
    ensures Old(hist) == if hist == [] then {0} else hist[|hist| - 1]
  {}

  lemma LiveNext(pat: Pat, hist: seq<ElemSet>, i: nat)
    requires i < |pat|
    ensures Live(pat, hist, i + 1) ==
            (i + 1 in Old(hist) || (Live(pat, hist, i) && Streak(hist, i) >= pat[i].minMatched))
  {}

  lemma {:induction false} DeadAfter(pat: Pat, hist: seq<ElemSet>, i: nat, j: nat)
    requires i <= j < |pat| && !Live(pat, hist, i) && forall k: nat :: k > i ==> k !in Old(hist)
    ensures !Live(pat, hist, j)
    decreases j
  {
    if j > i { DeadAfter(pat, hist, i, j - 1); }
  }

  lemma {:induction false} TakenWithin(m: multiset<Tile>, blank: Tile, ts: seq<Tile>)
    ensures TakeAll(m, blank, ts).Some? ==> TakeAll(m, blank, ts).value <= m
    decreases |ts|
  {
    if ts != [] && TakeTile(m, blank, ts[|ts| - 1]).Some? {
      TakenWithin(TakeTile(m, blank, ts[|ts| - 1]).value, blank, ts[..|ts| - 1]);
    }
  }

  lemma FirstIsStart(d: Dict, start: nat, j: nat)
    requires StartsRun(d, start) && InRun(d, start, j)
    ensures StartsRun(d, j) <==> j == start
  {}

  lemma NothingLater(f: Filter)
    requires FilterOk(f)
    ensures Later(f, []) == [] && After(f, []) == [] && Ahead(f, []) == []
  {}

  lemma AheadStep(f: Filter, s: Stack, u: Stack)
    requires FilterOk(f) && IsPath(f, s) && IsPath(f, u) && After(f, s) == [u] + After(f, u)
    ensures Ahead(f, s) == (if Reported(f, u) then [u] else []) + Ahead(f, u) && |After(f, u)| < |After(f, s)|
  {
    hide IsPath, After, Reported, Words;
    WordsConcat(f, [u], After(f, u));
    WordsOne(f, u);
  }

  lemma NothingAhead(f: Filter, s: Stack)
    requires FilterOk(f) && IsPath(f, s) && After(f, s) == []
    ensures Ahead(f, s) == []
  {
    hide IsPath, After;
  }

  /** The visit begins with the first top edge that passes. */
  lemma FirstPath(f: Filter)
    requires FilterOk(f)
    ensures f.d.topEdge.None? ==> WordList(f) == []
    ensures f.d.topEdge.Some? ==> f.d.topEdge.value < |f.d.edges|
    ensures f.d.topEdge.Some? ==> var e := NextPeer(f, [], f.d.topEdge.value);
                                  if e.None? then WordList(f) == []
                                  else IsPath(f, [e.value]) && WordList(f) == Ahead(f, [e.value])
  {
    hide IsPath, HasMatch, Sub, NextPeer, After, Reported;
    if f.d.topEdge.Some? {
      var top := f.d.topEdge.value;
      TopRun(f);
      SubNext(f, [], top);
      var e := NextPeer(f, [], top);
      if e.Some? {
        PeerIsPath(f, [], top);
        assert [] + [e.value] == [e.value];
        LaterOf(f, [], e.value);
        NothingLater(f);
        FirstIsShort(f, e.value);
      }
    }
  }

  lemma FirstIsShort(f: Filter, e: Entry)
    requires FilterOk(f) && IsPath(f, [e]) && All(f) == [[e]] + After(f, [e])
    ensures WordList(f) == Ahead(f, [e])
  {
    hide IsPath, After, All;
    WordsConcat(f, [[e]], After(f, [e]));
    WordsOne(f, [e]);
  }

  /** The top edge that is found from an empty stack. */
  ghost function FreshPeer(f: Filter): Option<Entry>
    requires FilterOk(f)
  {
    if f.d.topEdge.None? || f.d.topEdge.value >= |f.d.edges| then None else NextPeer(f, [], f.d.topEdge.value)
  }

  lemma FreshFits(f: Filter)
    requires FilterOk(f) && FreshPeer(f).Some?
    ensures HasMatch(f, [], FreshPeer(f).value.edge) == Some(FreshPeer(f).value.sets)
  {
    hide HasMatch;
    NextPeerIs(f, [], f.d.topEdge.value);
  }

  lemma TopIsPath(f: Filter, s: Stack, e: Entry)
    requires FilterOk(f) && f.d.topEdge.Some? && f.d.topEdge.value < |f.d.edges| && NextPeer(f, s, f.d.topEdge.value) == Some(e)
    requires HasMatch(f, [], e.edge) == Some(e.sets)
    ensures IsPath(f, [e]) && InRun(f.d, f.d.topEdge.value, e.edge)
  {
    hide HasMatch, NextPeer, InRun;
    NextPeerIs(f, s, f.d.topEdge.value);
    PathStep(f, [], e);
    assert [] + [e] == [e];
  }

  /** Without patterns it does not matter where the stack stands. */
  lemma {:induction false} SamePeer(f: Filter, s: Stack, k: nat)
    requires FilterOk(f) && k < |f.d.edges| && f.pats == []
    ensures NextPeer(f, s, k) == NextPeer(f, [], k) == Some(Entry(k, []))
  {
    assert HasMatch(f, s, k) == Some([]) == HasMatch(f, [], k);
  }

  /** `edge` lies in the run that may follow `s`. */
  ghost predicate StartAt(f: Filter, s: Stack, edge: nat) {
    (s != [] ==> s[|s| - 1].edge < |f.d.edges|) && Start(f, s).Some? && InRun(f.d, Start(f, s).value, edge)
  }

  lemma StartAtRun(f: Filter, s: Stack, edge: nat)
    requires RunStarts(f.d) && StartAt(f, s, edge)
    ensures (s != [] ==> s[|s| - 1].edge < |f.d.edges|) && Start(f, s).Some?
    ensures var k := Start(f, s).value;
            k <= edge < |f.d.edges| && InRun(f.d, k, edge) && StartsRun(f.d, k)
  {}

  lemma RunAt(f: Filter, s: Stack)
    requires RunStarts(f.d) && (s != [] ==> s[|s| - 1].edge < |f.d.edges|) && Start(f, s).Some?
    ensures StartsRun(f.d, Start(f, s).value)
  {}

  lemma RunStep(d: Dict, k: nat, j: nat)
    requires WellFormed(d) && InRun(d, k, j) && !d.edges[j].last
    ensures k <= j + 1 < |d.edges| && InRun(d, k, j + 1)
  {}

  /** The end of `u` and its extensions, said as what is still to be walked down. */
  lemma AllAfter(f: Filter, u: Stack)
    requires FilterOk(f) && IsPath(f, u) && u != [] && u[|u| - 1].edge < |f.d.edges|
    ensures if |u| < f.max && Start(f, u).Some? then
              Start(f, u).value < |f.d.edges| && StartAt(f, u, Start(f, u).value)
              && Before(f, u) + ([u] + Children(f, u)) == Upper(f, u) + Sub(f, u, Start(f, u).value)
            else Before(f, u) + ([u] + Children(f, u)) == Upper(f, u)
  {
    hide IsPath, HasMatch, Before, Sub;
    FollowOk(f.d, u[|u| - 1].edge);
    assert Before(f, u) + ([u] + Children(f, u)) == (Before(f, u) + [u]) + Children(f, u);
  }

  lemma TopStart(f: Filter)
    requires FilterOk(f) && f.d.topEdge.Some?
    ensures StartAt(f, [], f.d.topEdge.value) && f.d.topEdge.value < |f.d.edges| && Upper(f, []) == []
  {}

  lemma BehindStep(f: Filter, s: Stack, u: Stack)
    requires FilterOk(f) && s != [] && IsPath(f, s) && (u == [] || IsPath(f, u)) && Upper(f, u) == Before(f, s)
    ensures Behind(f, s) == Behind(f, u) + (if Reported(f, u) then [u] else []) && |Upper(f, u)| < |Upper(f, s)|
  {
    hide IsPath, Before, Reported, Words;
    if u != [] {
      WordsConcat(f, Before(f, u), [u]);
      WordsOne(f, u);
    } else {
      NoneReported(f);
    }
  }

  lemma NoneReported(f: Filter)
    ensures Words(f, []) == [] && !Reported(f, [])
  {}

  lemma WholeVisit(f: Filter, s: Stack)
    requires FilterOk(f) && f.d.topEdge.Some? && f.d.topEdge.value < |f.d.edges| && NextPeer(f, [], f.d.topEdge.value).Some?
    requires (s == [] || IsPath(f, s)) && Upper(f, s) == Upper(f, []) + Sub(f, [], f.d.topEdge.value)
    ensures s != [] && |s| <= f.max && WordList(f) == Behind(f, s) + (if Reported(f, s) then [s] else [])
  {
    hide IsPath, Before, Reported, Words, Sub, NextPeer;
    SubNext(f, [], f.d.topEdge.value);
    assert Upper(f, s) == All(f);
    if s != [] { PathParts(f, s); }
    WordsConcat(f, Before(f, s), [s]);
    WordsOne(f, s);
  }
}
