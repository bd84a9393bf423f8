/** The words an iterator reports: which ones they are, and in what order. */
module DictWords {
  import opened Wrappers
  import opened Dawg
  import opened PatFilter
  import opened PatExact
  import opened DictPaths

  function Words(f: Filter, l: seq<Stack>): (ws: seq<Stack>)
    ensures |ws| <= |l|
  {
    if l == [] then [] else (if Reported(f, l[0]) then [l[0]] else []) + Words(f, l[1..])
  }

  function WordList(f: Filter): seq<Stack>
    requires FilterOk(f)
  {
    Words(f, All(f))
  }

  lemma {:induction false} WordsConcat(f: Filter, a: seq<Stack>, b: seq<Stack>)
    ensures Words(f, a + b) == Words(f, a) + Words(f, b)
  {
    hide Reported;
    if a == [] {
      assert a + b == b;
    } else {
      assert (a + b)[0] == a[0] && (a + b)[1..] == a[1..] + b;
      WordsConcat(f, a[1..], b);
    }
  }

  lemma {:induction false} WordsHas(f: Filter, l: seq<Stack>, s: Stack)
    ensures s in Words(f, l) <==> s in l && Reported(f, s)
  {
    hide Reported;
    if l != [] {
      assert l == [l[0]] + l[1..];
      WordsHas(f, l[1..], s);
    }
  }

  lemma WordsOne(f: Filter, s: Stack)
    ensures Words(f, [s]) == if Reported(f, s) then [s] else []
  {
    hide Reported;
    assert [s][1..] == [];
  }

  // ----- order ------------------------------------------------------------------------------

  /** The words agree on `n` tiles, and then `a` ends or has the smaller tile. */
  predicate LessAt(a: seq<Tile>, b: seq<Tile>, n: nat) {
    n <= |a| && n < |b| && a[..n] == b[..n] && (n == |a| || a[n] < b[n])
  }

  /** Dictionary order. */
  ghost predicate Less(a: seq<Tile>, b: seq<Tile>) {
    exists n: nat :: LessAt(a, b, n)
  }

  ghost predicate Ascending(d: Dict, l: seq<Stack>) {
    forall i, j :: 0 <= i < j < |l| ==> Less(Word(d, l[i]), Word(d, l[j]))
  }

  lemma AscendConcat(d: Dict, a: seq<Stack>, b: seq<Stack>)
    requires Ascending(d, a) && Ascending(d, b)
    requires forall x, y :: x in a && y in b ==> Less(Word(d, x), Word(d, y))
    ensures Ascending(d, a + b)
  {
    hide Less;
    forall i, j | 0 <= i < j < |a + b|
      ensures Less(Word(d, (a + b)[i]), Word(d, (a + b)[j]))
    {
      if i < |a| && j >= |a| {
        assert a[i] in a && b[j - |a|] in b;
      }
    }
  }

  /** A path listed under `s` extends it by an edge of the run from `k` on, and is a path. */
  ghost predicate Under(f: Filter, s: Stack, k: nat, u: Stack) {
    |u| > |s| && u[..|s|] == s && InRun(f.d, k, u[|s|].edge) && IsPath(f, u)
  }

  ghost predicate Here(f: Filter, s: Stack, k: nat)
    requires FilterOk(f)
  {
    && k < |f.d.edges| && |s| < f.max && (s == [] || IsPath(f, s)) && (s != [] ==> s[|s| - 1].edge < |f.d.edges|)
    && Start(f, s).Some? && InRun(f.d, Start(f, s).value, k)
  }

  lemma {:induction false} SubUnder(f: Filter, s: Stack, k: nat, u: Stack)
    requires FilterOk(f) && Here(f, s, k) && u in Sub(f, s, k)
    ensures Under(f, s, k, u)
    decreases f.max - |s|, |f.d.edges| - k
  {
    hide HasMatch, Under, Tree;
    if u in Tree(f, s, k) {
      TreeUnder(f, s, k, u);
    } else {
      HereNext(f, s, k);
      SubUnder(f, s, k + 1, u);
      UnderLater(f, s, k, u);
    }
  }

  lemma HereNext(f: Filter, s: Stack, k: nat)
    requires FilterOk(f) && Here(f, s, k) && !f.d.edges[k].last
    ensures Here(f, s, k + 1)
  {
    hide HasMatch, IsPath;
  }

  lemma UnderLater(f: Filter, s: Stack, k: nat, u: Stack)
    requires k < |f.d.edges| && !f.d.edges[k].last && Under(f, s, k + 1, u)
    ensures Under(f, s, k, u)
  {
    hide HasMatch, IsPath;
  }

  lemma {:induction false} TreeUnder(f: Filter, s: Stack, k: nat, u: Stack)
    requires FilterOk(f) && Here(f, s, k) && u in Tree(f, s, k)
    ensures Under(f, s, k, u) && u[|s|].edge == k
    decreases f.max - |s|, 0
  {
    hide HasMatch, IsPath;
    var t := s + [Entry(k, HasMatch(f, s, k).value)];
    PathStep(f, s, t[|s|]);
    assert t[..|s|] == s;
    if u != t {
      ChildUnder(f, t, u);
      assert u[..|s|] == u[..|t|][..|s|] == s;
    }
  }

  lemma {:induction false} ChildUnder(f: Filter, t: Stack, u: Stack)
    requires FilterOk(f) && t != [] && IsPath(f, t) && t[|t| - 1].edge < |f.d.edges| && u in Children(f, t)
    ensures |u| > |t| && u[..|t|] == t && IsPath(f, u)
    decreases f.max - |t|, |f.d.edges| + 1
  {
    hide HasMatch, IsPath, Sub;
    var k := Follow(f.d, t[|t| - 1].edge).value;
    FollowOk(f.d, t[|t| - 1].edge);
    SubUnder(f, t, k, u);
  }

  lemma PrefixLess(d: Dict, s: Stack, u: Stack)
    requires |u| > |s| && u[..|s|] == s
    ensures Less(Word(d, s), Word(d, u))
  {
    assert Word(d, u)[..|s|] == Word(d, s);
    assert LessAt(Word(d, s), Word(d, u), |s|);
  }

  lemma SiblingLess(d: Dict, s: Stack, x: Stack, y: Stack)
    requires |x| > |s| && |y| > |s| && x[..|s|] == s && y[..|s|] == s && TileOf(d, x[|s|].edge) < TileOf(d, y[|s|].edge)
    ensures Less(Word(d, x), Word(d, y))
  {
    assert Word(d, x)[..|s|] == Word(d, s) == Word(d, y)[..|s|];
    assert LessAt(Word(d, x), Word(d, y), |s|);
  }

  lemma {:induction false} SubAscends(f: Filter, s: Stack, k: nat)
    requires FilterOk(f) && Here(f, s, k)
    ensures Ascending(f.d, Sub(f, s, k))
    decreases f.max - |s|, |f.d.edges| - k
  {
    hide HasMatch, IsPath, Less, Tree, Ascending;
    TreeAscends(f, s, k);
    if f.d.edges[k].last {
      assert Sub(f, s, k) == Tree(f, s, k);
    } else {
      HereNext(f, s, k);
      SubAscends(f, s, k + 1);
      forall x: Stack, y: Stack | x in Tree(f, s, k) && y in Sub(f, s, k + 1)
        ensures Less(Word(f.d, x), Word(f.d, y))
      {
        TreeUnder(f, s, k, x);
        SubUnder(f, s, k + 1, y);
        LaterTile(f.d, k, y[|s|].edge);
        SiblingLess(f.d, s, x, y);
      }
      AscendConcat(f.d, Tree(f, s, k), Sub(f, s, k + 1));
    }
  }

  lemma LaterTile(d: Dict, k: nat, j: nat)
    requires WellFormed(d) && k < |d.edges| && !d.edges[k].last && InRun(d, k + 1, j)
    ensures TileOf(d, k) < TileOf(d, j)
  {
    RunSorted(d, k, j);
  }

  lemma {:induction false} TreeAscends(f: Filter, s: Stack, k: nat)
    requires FilterOk(f) && Here(f, s, k)
    ensures Ascending(f.d, Tree(f, s, k))
    decreases f.max - |s|, 0
  {
    hide HasMatch, IsPath, Less, Children, Ascending;
    if HasMatch(f, s, k).None? {
      Trivial(f.d, []);
    } else {
      var t := s + [Entry(k, HasMatch(f, s, k).value)];
      PathStep(f, s, t[|s|]);
      ChildrenAscend(f, t);
      forall x, y | x in [t] && y in Children(f, t)
        ensures Less(Word(f.d, x), Word(f.d, y))
      {
        ChildUnder(f, t, y);
        PrefixLess(f.d, t, y);
      }
      Trivial(f.d, [t]);
      AscendConcat(f.d, [t], Children(f, t));
    }
  }

  lemma Trivial(d: Dict, l: seq<Stack>)
    requires |l| <= 1
    ensures Ascending(d, l)
  {}

  lemma {:induction false} ChildrenAscend(f: Filter, t: Stack)
    requires FilterOk(f) && t != [] && IsPath(f, t) && t[|t| - 1].edge < |f.d.edges|
    ensures Ascending(f.d, Children(f, t))
    decreases f.max - |t|, |f.d.edges| + 1
  {
    hide HasMatch, IsPath, Sub, Ascending;
    var next := Follow(f.d, t[|t| - 1].edge);
    FollowOk(f.d, t[|t| - 1].edge);
    if |t| >= f.max || next.None? {
      Trivial(f.d, []);
    } else {
      SubAscends(f, t, next.value);
    }
  }

  lemma {:induction false} WordsAscend(f: Filter, l: seq<Stack>)
    requires Ascending(f.d, l)
    ensures Ascending(f.d, Words(f, l))
    decreases |l|
  {
    hide Reported, Less;
    if l != [] {
      WordsAscend(f, l[1..]);
      var rest := Words(f, l[1..]);
      forall x, y | x in [l[0]] && y in rest
        ensures Less(Word(f.d, x), Word(f.d, y))
      {
        WordsHas(f, l[1..], y);
        var j :| 0 <= j < |l[1..]| && l[1..][j] == y;
        assert l[j + 1] == y;
      }
      AscendConcat(f.d, if Reported(f, l[0]) then [l[0]] else [], rest);
    }
  }

  lemma TopRun(f: Filter)
    requires FilterOk(f) && f.d.topEdge.Some?
    ensures Here(f, [], f.d.topEdge.value)
  {}

  /** The iterator's words come in strictly increasing order, so none comes twice. */
  lemma InOrder(f: Filter)
    requires FilterOk(f)
    ensures Ascending(f.d, All(f)) && Ascending(f.d, WordList(f))
  {
    hide HasMatch, Sub, Ascending;
    if f.d.topEdge.Some? {
      TopRun(f);
      SubAscends(f, [], f.d.topEdge.value);
    } else {
      Trivial(f.d, []);
    }
    WordsAscend(f, All(f));
  }

  lemma NotLessSelf(a: seq<Tile>)
    ensures !Less(a, a)
  {}

  // ----- which words ------------------------------------------------------------------------

  /** The paths visited are all the paths there are. */
  lemma VisitsPaths(f: Filter, s: Stack)
    requires FilterOk(f)
    ensures s in All(f) <==> IsPath(f, s)
  {
    hide HasMatch, IsPath, Sub, Before, After;
    if s in All(f) {
      TopRun(f);
      SubUnder(f, [], f.d.topEdge.value, s);
    }
    if IsPath(f, s) {
      CutAt(f, s);
      var all := Before(f, s) + [s] + After(f, s);
      assert all[|Before(f, s)|] == s;
    }
  }

  /** A path is the way its word is spelled in the graph. */
  lemma {:induction false} PathSpells(f: Filter, s: Stack)
    requires FilterOk(f) && IsPath(f, s)
    ensures s != [] && s[|s| - 1].edge < |f.d.edges|
    ensures FollowPath(f.d, f.d.topEdge, Word(f.d, s)) == Some(Follow(f.d, s[|s| - 1].edge))
    ensures Accepts(f.d, f.d.topEdge, Word(f.d, s)) <==> f.d.edges[s[|s| - 1].edge].accepting
    decreases |s|
  {
    hide HasMatch, IsPath, InRun, FollowPath, Accepts, Word, EdgeWithTile, Sane;
    PathParts(f, s);
    var p, k := s[..|s| - 1], s[|s| - 1].edge;
    var t := TileOf(f.d, k);
    if p != [] {
      PathSpells(f, p);
    } else {
      NothingSpelled(f.d);
    }
    RunBounds(f.d, Start(f, p).value, k);
    EdgeWithTileExact(f.d, Start(f, p).value, t, k);
    WordMore(f.d, s);
    FollowPathSplit(f.d, f.d.topEdge, Word(f.d, p), [t]);
    AcceptsSplit(f.d, f.d.topEdge, Word(f.d, p), [t]);
    OneTileStep(f.d, Start(f, p).value, k, t);
  }

  lemma NothingSpelled(d: Dict)
    requires Sane(d) && ValidEdge(d, d.topEdge)
    ensures Word(d, []) == [] && FollowPath(d, d.topEdge, []) == Some(d.topEdge)
  {}

  lemma WordMore(d: Dict, s: Stack)
    requires s != []
    ensures Word(d, s) == Word(d, s[..|s| - 1]) + [TileOf(d, s[|s| - 1].edge)]
  {}

  lemma OneTileStep(d: Dict, run: nat, k: nat, t: Tile)
    requires Sane(d) && run < |d.edges| && k < |d.edges| && EdgeWithTile(d, run, t) == Some(k)
    ensures FollowPath(d, Some(run), [t]) == Some(Follow(d, k)) && Accepts(d, Some(run), [t]) == d.edges[k].accepting
  {
    hide EdgeWithTile;
    assert [t][1..] == [];
  }

  lemma RunBounds(d: Dict, k: nat, j: nat)
    requires InRun(d, k, j)
    ensures k < |d.edges|
  {}

  /** No pattern stops the word. */
  ghost predicate Alive(f: Filter, w: seq<Tile>) {
    forall p :: 0 <= p < |f.pats| ==> Traced(f.pats[p], f.d.blankTile, Run(f.pats[p], f.d.blankTile, w), w)
  }

  /** The sets on the stack are those of its word. */
  lemma HistIsRun(f: Filter, s: Stack, p: nat)
    requires FilterOk(f) && p < |f.pats| && (s == [] || IsPath(f, s))
    ensures Hist(s, p) == Run(f.pats[p], f.d.blankTile, Word(f.d, s))
  {
    hide IsPath, Traced, Run;
    PathTraced(f, s, p);
    TracedIsRun(f.pats[p], f.d.blankTile, Hist(s, p), Word(f.d, s));
  }

  lemma AliveNext(f: Filter, s: Stack, k: nat, w: seq<Tile>)
    requires FilterOk(f) && (s == [] || IsPath(f, s)) && w != [] && TileOf(f.d, k) == w[0] && Alive(f, Word(f.d, s) + w)
    ensures HasMatch(f, s, k) == Some(NextSets(f, s, k))
  {
    hide IsPath, Traced, Run, Next;
    var v := Word(f.d, s) + w;
    assert v[..|s|] == Word(f.d, s) && v[|s|] == w[0];
    forall p | 0 <= p < |f.pats|
      ensures NextSets(f, s, k)[p] != {}
    {
      RunAlive(f.pats[p], f.d.blankTile, v, |s|);
      HistIsRun(f, s, p);
    }
  }

  /** Every spelling that no pattern stops is a path. */
  lemma {:induction false} SpellingIsPath(f: Filter, s: Stack, w: seq<Tile>) returns (u: Stack)
    requires FilterOk(f) && Alive(f, Word(f.d, s) + w) && (s == [] || IsPath(f, s)) && (s != [] ==> s[|s| - 1].edge < |f.d.edges|)
    requires |s| + |w| <= f.max && ValidEdge(f.d, Start(f, s)) && Accepts(f.d, Start(f, s), w)
    ensures IsPath(f, u) && Word(f.d, u) == Word(f.d, s) + w
    ensures u != [] && u[|u| - 1].edge < |f.d.edges| && f.d.edges[u[|u| - 1].edge].accepting
    decreases |w|
  {
    hide IsPath, InRun, WellFormed, HasMatch, Alive, NextSets;
    var start := Start(f, s).value;
    var k := EdgeWithTile(f.d, start, w[0]).value;
    EdgeWithTileExact(f.d, start, w[0], k);
    AliveNext(f, s, k, w);
    var e := Entry(k, NextSets(f, s, k));
    var t := s + [e];
    PathStep(f, s, e);
    assert Word(f.d, t) == Word(f.d, s) + [w[0]];
    if |w| == 1 {
      assert w == [w[0]];
      u := t;
    } else {
      FollowOk(f.d, k);
      assert Word(f.d, s) + [w[0]] + w[1..] == Word(f.d, s) + w;
      u := SpellingIsPath(f, t, w[1..]);
    }
  }

  ghost predicate Lists(f: Filter, w: seq<Tile>)
    requires FilterOk(f)
  {
    exists i :: 0 <= i < |WordList(f)| && Word(f.d, WordList(f)[i]) == w
  }

  lemma ListedHas(f: Filter, u: Stack)
    requires FilterOk(f) && IsPath(f, u) && Reported(f, u)
    ensures u in WordList(f) && Lists(f, Word(f.d, u))
  {
    hide IsPath, All, Words, Reported, FilterOk;
    VisitsPaths(f, u);
    WordsHas(f, All(f), u);
    var i :| 0 <= i < |WordList(f)| && WordList(f)[i] == u;
  }

  lemma SpelledFromTop(f: Filter, w: seq<Tile>) returns (u: Stack)
    requires FilterOk(f) && Alive(f, w) && ValidEdge(f.d, f.d.topEdge) && Accepts(f.d, f.d.topEdge, w) && |w| <= f.max
    ensures IsPath(f, u) && Word(f.d, u) == w
    ensures u != [] && u[|u| - 1].edge < |f.d.edges| && f.d.edges[u[|u| - 1].edge].accepting
  {
    hide HasMatch, IsPath, Accepts, Alive;
    assert Word(f.d, []) == [];
    assert [] + w == w;
    u := SpellingIsPath(f, [], w);
  }

  /** Does every pattern let the word through? */
  ghost predicate AllPass(f: Filter, w: seq<Tile>) {
    forall p :: 0 <= p < |f.pats| ==> Passes(f.pats[p], f.d.blankTile, w)
  }

  lemma AllListed(f: Filter, w: seq<Tile>)
    requires FilterOk(f) && AllPass(f, w) && ValidEdge(f.d, f.d.topEdge)
    requires Accepts(f.d, f.d.topEdge, w) && f.min <= |w| <= f.max
    ensures Lists(f, w)
  {
    hide HasMatch, IsPath, FilterOk, WordList, Accepts, Lists, Alive, AllPass, MatchFinished, Word;
    PassedIsAlive(f, w);
    var u := SpelledFromTop(f, w);
    WordLength(f.d, u);
    PassedIsFinished(f, u);
    ListedHas(f, u);
  }

  lemma PassedIsAlive(f: Filter, w: seq<Tile>)
    requires AllPass(f, w)
    ensures Alive(f, w)
  {
    hide Run, Finished;
  }

  lemma PassedIsFinished(f: Filter, u: Stack)
    requires FilterOk(f) && IsPath(f, u) && AllPass(f, Word(f.d, u)) && u != []
    ensures MatchFinished(f, u)
  {
    hide IsPath, FilterOk, Finished, Passes, Word;
    forall p | 0 <= p < |f.pats|
      ensures Finished(f.pats[p], Hist(u, p))
    {
      FinishedBy(f, u, p);
    }
  }

  lemma WordLength(d: Dict, u: Stack)
    ensures |Word(d, u)| == |u|
  {}

  /** A path whose word passes a pattern finishes it. */
  lemma FinishedBy(f: Filter, u: Stack, p: nat)
    requires FilterOk(f) && IsPath(f, u) && p < |f.pats| && Passes(f.pats[p], f.d.blankTile, Word(f.d, u))
    ensures Finished(f.pats[p], Hist(u, p))
  {
    hide IsPath, FilterOk, Run, Finished;
    HistIsRun(f, u, p);
  }

  lemma ListedPasses(f: Filter, s: Stack, p: nat)
    requires FilterOk(f) && s in WordList(f) && p < |f.pats|
    ensures Passes(f.pats[p], f.d.blankTile, Word(f.d, s)) && NoBlanks(f.d.blankTile, Word(f.d, s))
  {
    hide IsPath, WordList, Run, Traced, Finished, Accepts;
    ListedPath(f, s);
    PathTraced(f, s, p);
    HistIsRun(f, s, p);
  }

  /** The iterator reports exactly the dictionary's words of `min` to `max` tiles that every pattern
      lets through. */
  lemma ListsPassing(f: Filter, w: seq<Tile>)
    requires FilterOk(f)
    ensures Lists(f, w) <==> Accepts(f.d, f.d.topEdge, w) && f.min <= |w| <= f.max && AllPass(f, w)
  {
    hide WellFormed, WordList, Accepts, Passes;
    TopValid(f.d);
    if Lists(f, w) {
      var i :| 0 <= i < |WordList(f)| && Word(f.d, WordList(f)[i]) == w;
      ListedPath(f, WordList(f)[i]);
      forall p | 0 <= p < |f.pats|
        ensures Passes(f.pats[p], f.d.blankTile, w)
      {
        ListedPasses(f, WordList(f)[i], p);
      }
    }
    if Accepts(f.d, f.d.topEdge, w) && f.min <= |w| <= f.max && AllPass(f, w) {
      AllListed(f, w);
    }
  }

  /** Without patterns the iterator reports exactly the dictionary's words of `min` to `max` tiles. */
  lemma ListsExactly(f: Filter, w: seq<Tile>)
    requires FilterOk(f) && f.pats == []
    ensures Lists(f, w) <==> Accepts(f.d, f.d.topEdge, w) && f.min <= |w| <= f.max
  {
    hide WellFormed, WordList, Accepts, Passes, Lists;
    ListsPassing(f, w);
  }

  /** `ws` holds the dictionary's words of `min` to `max` tiles, each once, in ascending order. */
  ghost predicate AreWords(d: Dict, min: nat, max: nat, ws: seq<seq<Tile>>)
    requires WellFormed(d)
  {
    && (forall i, j :: 0 <= i < j < |ws| ==> ws[i] != ws[j] && Less(ws[i], ws[j]))
    && (forall w :: w in ws <==> Accepts(d, d.topEdge, w) && min <= |w| <= max)
  }

  /** What the stacks of the list spell. */
  function Spellings(f: Filter): (ws: seq<seq<Tile>>)
    requires FilterOk(f)
    ensures |ws| == |WordList(f)| && forall i :: 0 <= i < |ws| ==> ws[i] == Word(f.d, WordList(f)[i])
  {
    seq(|WordList(f)|, i requires 0 <= i < |WordList(f)| => Word(f.d, WordList(f)[i]))
  }

  /** Without patterns those are the words of the dictionary. */
  lemma SpellingsAre(f: Filter)
    requires FilterOk(f) && f.pats == []
    ensures AreWords(f.d, f.min, f.max, Spellings(f))
  {
    hide WellFormed, WordList, Accepts, Less, Word;
    TopValid(f.d);
    InOrder(f);
    var ws := Spellings(f);
    forall i, j | 0 <= i < j < |ws|
      ensures ws[i] != ws[j]
    {
      NotLessSelf(ws[i]);
    }
    forall w
      ensures w in ws <==> Accepts(f.d, f.d.topEdge, w) && f.min <= |w| <= f.max
    {
      ListsExactly(f, w);
      if Lists(f, w) {
        var i :| 0 <= i < |WordList(f)| && Word(f.d, WordList(f)[i]) == w;
        assert ws[i] == w;
      }
    }
  }

  lemma TopValid(d: Dict)
    requires WellFormed(d)
    ensures Sane(d) && ValidEdge(d, d.topEdge)
  {}

  /** Whatever the patterns, only words of the dictionary of the right length are reported. */
  lemma ListedPath(f: Filter, s: Stack)
    requires FilterOk(f) && s in WordList(f)
    ensures IsPath(f, s) && Reported(f, s)
    ensures Accepts(f.d, f.d.topEdge, Word(f.d, s)) && f.min <= |s| <= f.max
  {
    hide HasMatch, IsPath, All, Words;
    WordsHas(f, All(f), s);
    VisitsPaths(f, s);
    PathParts(f, s);
    PathSpells(f, s);
  }

  // ----- patterns ---------------------------------------------------------------------------

  lemma {:induction false} PathTraced(f: Filter, s: Stack, p: nat)
    requires FilterOk(f) && p < |f.pats| && (s == [] || IsPath(f, s))
    ensures Traced(f.pats[p], f.d.blankTile, Hist(s, p), Word(f.d, s)) && NoBlanks(f.d.blankTile, Word(f.d, s))
    decreases |s|
  {
    hide Next, IsPath;
    if s != [] {
      PathParts(f, s);
      var q, k := s[..|s| - 1], s[|s| - 1].edge;
      PathTraced(f, q, p);
      assert Hist(s, p)[..|q|] == Hist(q, p) && Word(f.d, s)[..|q|] == Word(f.d, q);
      assert s[|s| - 1].sets == NextSets(f, q, k);
      assert Word(f.d, s) == Word(f.d, q) + [TileOf(f.d, k)];
    }
  }

  /** Every word reported matches every pattern, but that a limit of zero tiles lets one through. */
  lemma ListedMatches(f: Filter, s: Stack, p: nat)
    requires FilterOk(f) && s in WordList(f) && p < |f.pats|
    ensures Matches(Raised(f.pats[p]), f.d.blankTile, Word(f.d, s))
    ensures PositiveMax(f.pats[p]) ==> Matches(f.pats[p], f.d.blankTile, Word(f.d, s))
  {
    hide HasMatch, IsPath, WordList, Finished, Traced, Matches, PositiveMax, Raised;
    ListedPath(f, s);
    PathTraced(f, s, p);
    FilterSound(f.pats[p], f.d.blankTile, Hist(s, p), Word(f.d, s));
  }

  lemma {:induction false} AcceptedNoBlanks(d: Dict, e: Option<nat>, w: seq<Tile>)
    requires WellFormed(d) && ValidEdge(d, e) && Accepts(d, e, w)
    ensures NoBlanks(d.blankTile, w)
    decreases |w|
  {
    if |w| > 1 {
      var k := EdgeWithTile(d, e.value, w[0]).value;
      FollowOk(d, k);
      AcceptedNoBlanks(d, Follow(d, k), w[1..]);
      assert w == [w[0]] + w[1..];
    }
  }

  /** No pattern needs an element to start afresh, and none has one limited to zero tiles. */
  ghost predicate Unhindered(f: Filter) {
    forall p :: 0 <= p < |f.pats| ==> NoRestart(f.pats[p], f.d.blankTile, f.max) && PositiveMax(f.pats[p])
  }

  /** With such patterns the iterator reports exactly the words of the right length that match all. */
  lemma ListsMatching(f: Filter, w: seq<Tile>)
    requires FilterOk(f) && Unhindered(f)
    ensures Lists(f, w) <==>
              && Accepts(f.d, f.d.topEdge, w) && f.min <= |w| <= f.max
              && forall p :: 0 <= p < |f.pats| ==> Matches(f.pats[p], f.d.blankTile, w)
  {
    hide WellFormed, Accepts, Passes, Lists, Matches, NoRestart, PositiveMax;
    ListsPassing(f, w);
    TopValid(f.d);
    if Accepts(f.d, f.d.topEdge, w) && f.min <= |w| <= f.max {
      AcceptedNoBlanks(f.d, f.d.topEdge, w);
      forall p | 0 <= p < |f.pats|
        ensures Passes(f.pats[p], f.d.blankTile, w) <==> Matches(f.pats[p], f.d.blankTile, w)
      {
        FilterExact(f.pats[p], f.d.blankTile, f.max, w);
      }
    }
  }
}
