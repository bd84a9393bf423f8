/** The paths of a dictionary's word graph in the order the iterator visits them (dictiter.c), and
    how that order is cut in two at any path. */
module DictPaths {
  import opened Wrappers
  import opened Dawg
  import opened PatFilter

  /** What an iterator is made for: the words of `d` of `min` to `max` tiles that pass every
      pattern. */
  datatype Filter = Filter(d: Dict, min: nat, max: nat, pats: seq<Pat>)

  /** One level of the iterator's stack: the edge, and for each pattern the elements its tile may
      have been matched by. */
  datatype Entry = Entry(edge: nat, sets: seq<ElemSet>)

  type Stack = seq<Entry>

  ghost predicate FilterOk(f: Filter) {
    WellFormed(f.d) && 2 <= f.min <= f.max
  }

  function TileOf(d: Dict, k: nat): Tile {
    if k < |d.edges| then d.edges[k].tile else 0
  }

  /** The word spelled by a path. */
  function Word(d: Dict, s: Stack): (w: seq<Tile>)
    ensures |w| == |s| && forall i :: 0 <= i < |s| ==> w[i] == TileOf(d, s[i].edge)
  {
    seq(|s|, i requires 0 <= i < |s| => TileOf(d, s[i].edge))
  }

  /** The sets kept for pattern `p`. */
  function Hist(s: Stack, p: nat): (h: seq<ElemSet>)
    ensures |h| == |s| && forall i :: 0 <= i < |s| ==> h[i] == if p < |s[i].sets| then s[i].sets[p] else {}
  {
    seq(|s|, i requires 0 <= i < |s| => if p < |s[i].sets| then s[i].sets[p] else {})
  }

  // ----- the filter -------------------------------------------------------------------------

  function NextSets(f: Filter, s: Stack, k: nat): (r: seq<ElemSet>)
    ensures |r| == |f.pats|
  {
    seq(|f.pats|, p requires 0 <= p < |f.pats| => Next(f.pats[p], f.d.blankTile, Hist(s, p), Word(f.d, s), TileOf(f.d, k)))
  }

  /** HAS_MATCH: may the edge at `k` follow the stack `s`? */
  function HasMatch(f: Filter, s: Stack, k: nat): (r: Option<seq<ElemSet>>) {
    var sets := NextSets(f, s, k);
    if forall p :: 0 <= p < |sets| ==> sets[p] != {} then Some(sets) else None
  }

  /** MATCH_FINISHED. */
  predicate MatchFinished(f: Filter, s: Stack)
    requires s != []
  {
    forall p :: 0 <= p < |f.pats| ==> Finished(f.pats[p], Hist(s, p))
  }

  /** The stack stands on a word the iterator reports. */
  predicate Reported(f: Filter, s: Stack) {
    && s != [] && f.min <= |s|
    && s[|s| - 1].edge < |f.d.edges| && f.d.edges[s[|s| - 1].edge].accepting
    && MatchFinished(f, s)
  }

  // ----- the visit --------------------------------------------------------------------------

  /** The paths that extend `s` by an edge of the run from `k` on, and their extensions. */
  function Sub(f: Filter, s: Stack, k: nat): seq<Stack>
    requires FilterOk(f) && k < |f.d.edges| && |s| < f.max
    decreases f.max - |s|, |f.d.edges| - k
  {
    Tree(f, s, k) + if f.d.edges[k].last then [] else Sub(f, s, k + 1)
  }

  /** The path that extends `s` by the edge at `k`, and its extensions. */
  function Tree(f: Filter, s: Stack, k: nat): seq<Stack>
    requires FilterOk(f) && k < |f.d.edges| && |s| < f.max
    decreases f.max - |s|, 0
  {
    match HasMatch(f, s, k)
    case None => []
    case Some(sets) => [s + [Entry(k, sets)]] + Children(f, s + [Entry(k, sets)])
  }

  function Children(f: Filter, s: Stack): seq<Stack>
    requires FilterOk(f) && s != [] && s[|s| - 1].edge < |f.d.edges|
    decreases f.max - |s|, |f.d.edges| + 1
  {
    var next := Follow(f.d, s[|s| - 1].edge);
    if |s| >= f.max || next.None? then [] else Sub(f, s, next.value)
  }

  function All(f: Filter): seq<Stack>
    requires FilterOk(f)
  {
    if f.d.topEdge.None? then [] else Sub(f, [], f.d.topEdge.value)
  }

  /** Where the run of edges that may follow `s` starts. */
  function Start(f: Filter, s: Stack): Option<nat>
    requires s != [] ==> s[|s| - 1].edge < |f.d.edges|
  {
    if s == [] then f.d.topEdge else Follow(f.d, s[|s| - 1].edge)
  }

  /** A path the iterator may stand on. */
  ghost predicate IsPath(f: Filter, s: Stack)
    decreases |s|
  {
    s != [] && |s| <= f.max &&
    var p, e := s[..|s| - 1], s[|s| - 1];
    && (p == [] || IsPath(f, p))
    && (p != [] ==> p[|p| - 1].edge < |f.d.edges|) && Start(f, p).Some? && InRun(f.d, Start(f, p).value, e.edge)
    && HasMatch(f, p, e.edge) == Some(e.sets)
  }

  function Siblings(f: Filter, s: Stack): seq<Stack>
    requires FilterOk(f) && s != [] && |s| <= f.max && s[|s| - 1].edge < |f.d.edges|
  {
    var k := s[|s| - 1].edge;
    if f.d.edges[k].last then [] else Sub(f, s[..|s| - 1], k + 1)
  }

  /** The paths visited after `s` and all its extensions. */
  ghost function Later(f: Filter, s: Stack): seq<Stack>
    requires FilterOk(f) && (s == [] || IsPath(f, s))
    decreases |s|
  {
    if s == [] then [] else Siblings(f, s) + Later(f, s[..|s| - 1])
  }

  /** The paths visited after `s`. */
  ghost function After(f: Filter, s: Stack): seq<Stack>
    requires FilterOk(f) && (s == [] || IsPath(f, s))
  {
    if s == [] then [] else Children(f, s) + Later(f, s)
  }

  // ----- going forwards ---------------------------------------------------------------------

  /** nextPeerMatch: the first edge of the run from `k` on that may follow `s`. */
  function NextPeer(f: Filter, s: Stack, k: nat): (e: Option<Entry>)
    requires FilterOk(f) && k < |f.d.edges|
    decreases |f.d.edges| - k
  {
    match HasMatch(f, s, k)
    case Some(sets) => Some(Entry(k, sets))
    case None => if f.d.edges[k].last then None else NextPeer(f, s, k + 1)
  }

  lemma {:induction false} NextPeerIs(f: Filter, s: Stack, k: nat)
    requires FilterOk(f) && k < |f.d.edges|
    ensures var e := NextPeer(f, s, k);
            e.Some? ==> InRun(f.d, k, e.value.edge) && HasMatch(f, s, e.value.edge) == Some(e.value.sets)
    decreases |f.d.edges| - k
  {
    hide HasMatch;
    if HasMatch(f, s, k).None? && !f.d.edges[k].last {
      NextPeerIs(f, s, k + 1);
    }
  }

  lemma InRunMore(d: Dict, k: nat, i: nat, j: nat)
    requires InRun(d, k, i) && InRun(d, i, j)
    ensures InRun(d, k, j)
  {}

  lemma PathStep(f: Filter, s: Stack, e: Entry)
    requires |s| < f.max && (s == [] || IsPath(f, s)) && (s != [] ==> s[|s| - 1].edge < |f.d.edges|)
    requires Start(f, s).Some? && InRun(f.d, Start(f, s).value, e.edge) && HasMatch(f, s, e.edge) == Some(e.sets)
    ensures IsPath(f, s + [e])
  {
    hide HasMatch, Start, InRun;
    assert (s + [e])[..|s|] == s;
  }

  /** The peer found extends the path. */
  lemma PeerIsPath(f: Filter, s: Stack, k: nat)
    requires FilterOk(f) && |s| < f.max && (s == [] || IsPath(f, s)) && (s != [] ==> s[|s| - 1].edge < |f.d.edges|)
    requires k < |f.d.edges| && Start(f, s).Some? && InRun(f.d, Start(f, s).value, k) && NextPeer(f, s, k).Some?
    ensures IsPath(f, s + [NextPeer(f, s, k).value])
  {
    hide HasMatch, WellFormed, InRun, IsPath, NextPeer;
    NextPeerIs(f, s, k);
    InRunMore(f.d, Start(f, s).value, k, NextPeer(f, s, k).value.edge);
    PathStep(f, s, NextPeer(f, s, k).value);
  }

  lemma RunGoesOn(d: Dict, k: nat)
    requires WellFormed(d) && k < |d.edges| && !d.edges[k].last
    ensures k + 1 < |d.edges|
  {}

  lemma {:induction false} SubNext(f: Filter, s: Stack, k: nat)
    requires FilterOk(f) && k < |f.d.edges| && |s| < f.max
    ensures var e := NextPeer(f, s, k);
            if e.None? then Sub(f, s, k) == []
            else e.value.edge < |f.d.edges|
                 && Sub(f, s, k) == [s + [e.value]] + (Children(f, s + [e.value]) + Siblings(f, s + [e.value]))
    decreases |f.d.edges| - k
  {
    hide HasMatch, WellFormed, Children;
    match HasMatch(f, s, k) {
      case None =>
        if !f.d.edges[k].last {
          RunGoesOn(f.d, k);
          SubNext(f, s, k + 1);
        }
      case Some(sets) =>
        var t := s + [Entry(k, sets)];
        assert t[..|t| - 1] == s;
        assert ([t] + Children(f, t)) + Siblings(f, t) == [t] + (Children(f, t) + Siblings(f, t));
    }
  }

  /** The path visited next is the first extension if there is one ... */
  lemma AfterChild(f: Filter, s: Stack)
    requires FilterOk(f) && s != [] && IsPath(f, s) && |s| < f.max && s[|s| - 1].edge < |f.d.edges| && Start(f, s).Some?
    ensures Start(f, s).value < |f.d.edges|
    ensures var e := NextPeer(f, s, Start(f, s).value);
            if e.None? then After(f, s) == Later(f, s)
            else IsPath(f, s + [e.value]) && After(f, s) == [s + [e.value]] + After(f, s + [e.value])
  {
    hide HasMatch, WellFormed, NextPeer, Sub, IsPath, Later, Siblings;
    var k := Start(f, s).value;
    FollowOk(f.d, s[|s| - 1].edge);
    SubNext(f, s, k);
    assert Children(f, s) == Sub(f, s, k);
    if NextPeer(f, s, k).Some? {
      PeerIsPath(f, s, k);
      LaterOf(f, s, NextPeer(f, s, k).value);
    }
  }

  lemma LaterOf(f: Filter, s: Stack, e: Entry)
    requires FilterOk(f) && IsPath(f, s + [e]) && (s == [] || IsPath(f, s)) && e.edge < |f.d.edges|
    ensures [s + [e]] + (Children(f, s + [e]) + Siblings(f, s + [e])) + Later(f, s) == [s + [e]] + After(f, s + [e])
  {
    hide HasMatch, WellFormed, Children, Siblings;
    assert (s + [e])[..|s|] == s;
  }

  lemma ChildlessAfter(f: Filter, s: Stack)
    requires FilterOk(f) && s != [] && IsPath(f, s) && s[|s| - 1].edge < |f.d.edges|
    requires |s| >= f.max || Start(f, s).None?
    ensures After(f, s) == Later(f, s)
  {
    hide HasMatch, WellFormed, Later, IsPath;
  }

  lemma FollowOk(d: Dict, k: nat)
    requires WellFormed(d) && k < |d.edges|
    ensures Follow(d, k).Some? ==> Follow(d, k).value < |d.edges| && InRun(d, Follow(d, k).value, Follow(d, k).value)
  {}

  /** ... else the next sibling, or the next sibling of the nearest path above that has one. */
  lemma LaterSibling(f: Filter, s: Stack)
    requires FilterOk(f) && IsPath(f, s)
    ensures s[|s| - 1].edge < |f.d.edges|
    ensures var k, p := s[|s| - 1].edge, s[..|s| - 1];
            if f.d.edges[k].last then Later(f, s) == Later(f, p)
            else
              && k + 1 < |f.d.edges|
              && var e := NextPeer(f, p, k + 1);
              if e.None? then Later(f, s) == Later(f, p)
              else IsPath(f, p + [e.value]) && Later(f, s) == [p + [e.value]] + After(f, p + [e.value])
  {
    hide *;
    PathParts(f, s);
    SiblingsIs(f, s);
    var k, p := s[|s| - 1].edge, s[..|s| - 1];
    LaterIs(f, s);
    NothingBefore(Later(f, p));
    if !f.d.edges[k].last {
      PeersOf(f, p, k + 1);
    }
  }

  /** What the edges of a run from `k` on and the paths above give. */
  lemma PeersOf(f: Filter, p: Stack, k: nat)
    requires FilterOk(f) && |p| < f.max && (p == [] || IsPath(f, p)) && (p != [] ==> p[|p| - 1].edge < |f.d.edges|)
    requires k < |f.d.edges| && Start(f, p).Some? && InRun(f.d, Start(f, p).value, k)
    ensures var e := NextPeer(f, p, k);
            if e.None? then Sub(f, p, k) + Later(f, p) == Later(f, p)
            else IsPath(f, p + [e.value]) && Sub(f, p, k) + Later(f, p) == [p + [e.value]] + After(f, p + [e.value])
  {
    hide *;
    SubNext(f, p, k);
    NothingBefore(Later(f, p));
    if NextPeer(f, p, k).Some? {
      PeerIsPath(f, p, k);
      LaterOf(f, p, NextPeer(f, p, k).value);
    }
  }

  lemma NothingBefore<T>(a: seq<T>)
    ensures [] + a == a
  {}

  lemma PathParts(f: Filter, s: Stack)
    requires FilterOk(f) && IsPath(f, s)
    ensures s != [] && |s| <= f.max && s[|s| - 1].edge < |f.d.edges|
    ensures var p, k := s[..|s| - 1], s[|s| - 1].edge;
            && (p == [] || IsPath(f, p)) && (p != [] ==> p[|p| - 1].edge < |f.d.edges|)
            && Start(f, p).Some? && InRun(f.d, Start(f, p).value, k)
            && (!f.d.edges[k].last ==> InRun(f.d, Start(f, p).value, k + 1))
            && HasMatch(f, p, k) == Some(s[|s| - 1].sets)
  {
    hide HasMatch;
  }

  lemma SiblingsIs(f: Filter, s: Stack)
    requires FilterOk(f) && s != [] && |s| <= f.max && s[|s| - 1].edge < |f.d.edges|
    ensures var k := s[|s| - 1].edge;
            if f.d.edges[k].last then Siblings(f, s) == []
            else k + 1 < |f.d.edges| && Siblings(f, s) == Sub(f, s[..|s| - 1], k + 1)
  {
    hide Sub;
  }

  lemma LaterIs(f: Filter, s: Stack)
    requires FilterOk(f) && IsPath(f, s)
    ensures s != [] && |s| <= f.max && s[|s| - 1].edge < |f.d.edges|
    ensures (s[..|s| - 1] == [] || IsPath(f, s[..|s| - 1])) && Later(f, s) == Siblings(f, s) + Later(f, s[..|s| - 1])
  {
    hide HasMatch, Siblings;
  }

  // ----- cutting the visit at a path --------------------------------------------------------

  /** The trees of the run from `k` up to but not including `j`. */
  function SubUpTo(f: Filter, s: Stack, k: nat, j: nat): seq<Stack>
    requires FilterOk(f) && k <= j <= |f.d.edges| && |s| < f.max
    decreases j - k
  {
    if k == j then [] else SubUpTo(f, s, k, j - 1) + Tree(f, s, j - 1)
  }

  lemma SubFirst(f: Filter, s: Stack, k: nat)
    requires FilterOk(f) && k + 1 < |f.d.edges| && |s| < f.max && !f.d.edges[k].last
    ensures Sub(f, s, k) == Tree(f, s, k) + Sub(f, s, k + 1)
  {
    hide Tree, WellFormed;
  }

  lemma {:induction false} SubSplit(f: Filter, s: Stack, k: nat, j: nat)
    requires FilterOk(f) && |s| < f.max && InRun(f.d, k, j)
    ensures Sub(f, s, k) == SubUpTo(f, s, k, j) + Sub(f, s, j)
    decreases j - k
  {
    hide Tree, WellFormed, Sub;
    if k < j {
      SubSplit(f, s, k, j - 1);
      SubFirst(f, s, j - 1);
      assert SubUpTo(f, s, k, j - 1) + (Tree(f, s, j - 1) + Sub(f, s, j)) == SubUpTo(f, s, k, j) + Sub(f, s, j);
    }
  }

  /** The paths visited before `s`. */
  ghost function Before(f: Filter, s: Stack): seq<Stack>
    requires FilterOk(f) && IsPath(f, s)
    decreases |s|, 0
  {
    var p := s[..|s| - 1];
    Upper(f, p) + SubUpTo(f, p, Start(f, p).value, s[|s| - 1].edge)
  }

  /** Those up to and including `p`. */
  ghost function Upper(f: Filter, p: Stack): seq<Stack>
    requires FilterOk(f) && (p == [] || IsPath(f, p))
    decreases |p|, 1
  {
    if p == [] then [] else Before(f, p) + [p]
  }

  /** Every path is visited, and `Before` and `After` are what comes before and after it. */
  lemma {:induction false} CutAt(f: Filter, s: Stack)
    requires FilterOk(f) && IsPath(f, s)
    ensures All(f) == Before(f, s) + [s] + After(f, s)
    decreases |s|
  {
    PathParts(f, s);
    hide *;
    var p, k := s[..|s| - 1], s[|s| - 1].edge;
    SubAtPath(f, s);
    AroundIs(f, s);
    LaterIs(f, s);
    if p != [] {
      CutAt(f, p);
      BelowPath(f, p);
    } else {
      FromTop(f);
    }
    Regroup(Upper(f, p), SubUpTo(f, p, Start(f, p).value, k), [s], Children(f, s), Siblings(f, s), Later(f, p));
  }

  /** The run a path's last edge is in, cut there. */
  lemma SubAtPath(f: Filter, s: Stack)
    requires FilterOk(f) && IsPath(f, s)
    ensures s != [] && |s| <= f.max && s[|s| - 1].edge < |f.d.edges|
    ensures var p, k := s[..|s| - 1], s[|s| - 1].edge;
            && (p != [] ==> p[|p| - 1].edge < |f.d.edges|) && Start(f, p).Some? && Start(f, p).value <= k
            && Sub(f, p, Start(f, p).value)
               == SubUpTo(f, p, Start(f, p).value, k) + (([s] + Children(f, s)) + Siblings(f, s))
  {
    hide HasMatch, WellFormed, IsPath;
    PathParts(f, s);
    SubSplit(f, s[..|s| - 1], Start(f, s[..|s| - 1]).value, s[|s| - 1].edge);
    assert s == s[..|s| - 1] + [s[|s| - 1]];
  }

  lemma AroundIs(f: Filter, s: Stack)
    requires FilterOk(f) && IsPath(f, s)
    ensures s != [] && (s[..|s| - 1] == [] || IsPath(f, s[..|s| - 1]))
    ensures var p, k := s[..|s| - 1], s[|s| - 1].edge;
            && |p| < f.max && (p != [] ==> p[|p| - 1].edge < |f.d.edges|)
            && Start(f, p).Some? && Start(f, p).value <= k <= |f.d.edges|
            && Before(f, s) == Upper(f, p) + SubUpTo(f, p, Start(f, p).value, k)
            && Upper(f, p) == (if p == [] then [] else Before(f, p) + [p])
            && After(f, s) == Children(f, s) + Later(f, s)
  {
    hide HasMatch, SubUpTo, Children;
  }

  /** Above a path that is not the top: what follows it is what is below it, and what is later. */
  lemma BelowPath(f: Filter, p: Stack)
    requires FilterOk(f) && p != [] && IsPath(f, p) && |p| < f.max && p[|p| - 1].edge < |f.d.edges| && Start(f, p).Some?
    ensures Start(f, p).value < |f.d.edges| && After(f, p) == Sub(f, p, Start(f, p).value) + Later(f, p)
  {
    hide HasMatch, Sub, Later;
  }

  lemma FromTop(f: Filter)
    requires FilterOk(f) && Start(f, []).Some?
    ensures Start(f, []).value < |f.d.edges| && All(f) == Sub(f, [], Start(f, []).value) && Later(f, []) == []
  {
    hide Sub;
  }

  lemma Regroup<T>(a: seq<T>, b: seq<T>, c: seq<T>, d: seq<T>, e: seq<T>, g: seq<T>)
    ensures a + ((b + ((c + d) + e)) + g) == (a + b) + c + (d + (e + g))
  {}

  // ----- going backwards --------------------------------------------------------------------

  /** Runs start where the iterator, walking back, takes them to start: at the first edge or right
      behind a last one.  checkSanity does not test this. */
  ghost predicate RunStarts(d: Dict) {
    && (d.topEdge.Some? ==> StartsRun(d, d.topEdge.value))
    && forall k :: 0 <= k < |d.edges| && Follow(d, k).Some? ==> StartsRun(d, Follow(d, k).value)
  }

  /** isFirstEdge. */
  predicate StartsRun(d: Dict, k: nat) {
    k == 0 || (k <= |d.edges| && d.edges[k - 1].last)
  }

  /** prevPeerMatch within the run that starts at `k`: the last edge up to `j` that may follow `s`. */
  function PrevPeer(f: Filter, s: Stack, k: nat, j: nat): (e: Option<Entry>)
    requires k <= j < |f.d.edges|
    decreases j
  {
    match HasMatch(f, s, j)
    case Some(sets) => Some(Entry(j, sets))
    case None => if j == k then None else PrevPeer(f, s, k, j - 1)
  }

  lemma {:induction false} PrevPeerIs(f: Filter, s: Stack, k: nat, j: nat)
    requires k <= j < |f.d.edges|
    ensures var e := PrevPeer(f, s, k, j);
            e.Some? ==> k <= e.value.edge <= j && HasMatch(f, s, e.value.edge) == Some(e.value.sets)
    decreases j
  {
    hide HasMatch;
    if HasMatch(f, s, j).None? && j > k {
      PrevPeerIs(f, s, k, j - 1);
    }
  }

  lemma {:induction false} UpToPrev(f: Filter, s: Stack, k: nat, j: nat)
    requires FilterOk(f) && |s| < f.max && k <= j < |f.d.edges|
    ensures var e := PrevPeer(f, s, k, j);
            if e.None? then SubUpTo(f, s, k, j + 1) == []
            else k <= e.value.edge <= j
                 && SubUpTo(f, s, k, j + 1) == SubUpTo(f, s, k, e.value.edge) + ([s + [e.value]] + Children(f, s + [e.value]))
    decreases j
  {
    hide HasMatch, WellFormed, Children;
    if HasMatch(f, s, j).None? && j > k {
      UpToPrev(f, s, k, j - 1);
    }
  }

  lemma InRunLess(d: Dict, k: nat, i: nat, j: nat)
    requires InRun(d, k, j) && k <= i <= j
    ensures InRun(d, k, i)
  {}

  lemma PrevIsPath(f: Filter, s: Stack, j: nat)
    requires FilterOk(f) && |s| < f.max && (s == [] || IsPath(f, s)) && (s != [] ==> s[|s| - 1].edge < |f.d.edges|)
    requires Start(f, s).Some? && Start(f, s).value <= j < |f.d.edges|
    requires InRun(f.d, Start(f, s).value, j) && PrevPeer(f, s, Start(f, s).value, j).Some?
    ensures IsPath(f, s + [PrevPeer(f, s, Start(f, s).value, j).value])
  {
    hide HasMatch, WellFormed, IsPath, InRun, PrevPeer;
    var k := Start(f, s).value;
    PrevPeerIs(f, s, k, j);
    InRunLess(f.d, k, PrevPeer(f, s, k, j).value.edge, j);
    PathStep(f, s, PrevPeer(f, s, k, j).value);
  }

  lemma BeforeIs(f: Filter, p: Stack, e: Entry)
    requires FilterOk(f) && IsPath(f, p + [e]) && |p| < f.max && (p == [] || IsPath(f, p))
    requires (p != [] ==> p[|p| - 1].edge < |f.d.edges|) && Start(f, p).Some? && Start(f, p).value <= e.edge < |f.d.edges|
    ensures Before(f, p + [e]) == Upper(f, p) + SubUpTo(f, p, Start(f, p).value, e.edge)
  {
    hide HasMatch, WellFormed, SubUpTo, Upper;
    assert (p + [e])[..|p|] == p;
  }

  /** The trees of the run up to `j` end with that of the last edge that passes. */
  lemma EndsWithPrev(f: Filter, p: Stack, j: nat)
    requires FilterOk(f) && |p| < f.max && (p == [] || IsPath(f, p)) && (p != [] ==> p[|p| - 1].edge < |f.d.edges|)
    requires Start(f, p).Some? && Start(f, p).value <= j < |f.d.edges| && InRun(f.d, Start(f, p).value, j)
    ensures var k := Start(f, p).value;
            if PrevPeer(f, p, k, j).None? then SubUpTo(f, p, k, j + 1) == []
            else var u := p + [PrevPeer(f, p, k, j).value];
                 IsPath(f, u) && u[|u| - 1].edge < |f.d.edges|
                 && Upper(f, p) + SubUpTo(f, p, k, j + 1) == Before(f, u) + ([u] + Children(f, u))
  {
    hide HasMatch, WellFormed, PrevPeer, Children, Upper, IsPath, InRun, SubUpTo, Before;
    var k := Start(f, p).value;
    UpToPrev(f, p, k, j);
    if PrevPeer(f, p, k, j).Some? {
      PrevIsPath(f, p, j);
      var e := PrevPeer(f, p, k, j).value;
      var u := p + [e];
      BeforeIs(f, p, e);
      assert Upper(f, p) + (SubUpTo(f, p, k, e.edge) + ([u] + Children(f, u)))
          == (Upper(f, p) + SubUpTo(f, p, k, e.edge)) + ([u] + Children(f, u));
    }
  }

  /** The path visited just before `s`: its parent if no earlier sibling passes, else the last
      path among that sibling and its extensions. */
  lemma BeforeStep(f: Filter, s: Stack)
    requires FilterOk(f) && IsPath(f, s)
    ensures s != [] && |s| <= f.max && s[|s| - 1].edge < |f.d.edges|
    ensures var p, j := s[..|s| - 1], s[|s| - 1].edge;
            && (p != [] ==> p[|p| - 1].edge < |f.d.edges|) && Start(f, p).Some? && (p == [] || IsPath(f, p))
            && var k := Start(f, p).value;
            && InRun(f.d, k, j)
            && if j == k || PrevPeer(f, p, k, j - 1).None? then Before(f, s) == Upper(f, p)
               else var u := p + [PrevPeer(f, p, k, j - 1).value];
                    IsPath(f, u) && u[|u| - 1].edge < |f.d.edges| && Before(f, s) == Before(f, u) + ([u] + Children(f, u))
  {
    hide HasMatch, WellFormed, PrevPeer, Children, Upper, IsPath, InRun, SubUpTo, Before;
    PathParts(f, s);
    var p, e := s[..|s| - 1], s[|s| - 1];
    assert s == p + [e];
    var k := Start(f, p).value;
    RunOrder(f.d, k, e.edge);
    BeforeIs(f, p, e);
    if e.edge > k {
      InRunLess(f.d, k, e.edge - 1, e.edge);
      EndsWithPrev(f, p, e.edge - 1);
    }
    if e.edge == k || PrevPeer(f, p, k, e.edge - 1).None? {
      NothingUpTo(f, p, k, e.edge);
    }
  }

  lemma RunOrder(d: Dict, k: nat, j: nat)
    requires InRun(d, k, j)
    ensures k <= j < |d.edges|
  {}

  lemma NothingUpTo(f: Filter, p: Stack, k: nat, j: nat)
    requires FilterOk(f) && k <= j <= |f.d.edges| && |p| < f.max && (p == [] || IsPath(f, p))
    requires j == k || SubUpTo(f, p, k, j) == []
    ensures Upper(f, p) + SubUpTo(f, p, k, j) == Upper(f, p)
  {
    hide Upper, Tree;
  }

  /** The last extension of `s` lies in the tree of the last edge of its run that passes. */
  lemma LastChild(f: Filter, s: Stack, j: nat)
    requires FilterOk(f) && |s| < f.max && (s == [] || IsPath(f, s)) && (s != [] ==> s[|s| - 1].edge < |f.d.edges|)
    requires Start(f, s).Some? && Start(f, s).value <= j < |f.d.edges|
    requires InRun(f.d, Start(f, s).value, j) && f.d.edges[j].last
    ensures var k := Start(f, s).value;
            if PrevPeer(f, s, k, j).None? then Sub(f, s, k) == []
            else var u := s + [PrevPeer(f, s, k, j).value];
                 IsPath(f, u) && u[|u| - 1].edge < |f.d.edges|
                 && Upper(f, s) + Sub(f, s, k) == Before(f, u) + ([u] + Children(f, u))
  {
    hide HasMatch, WellFormed, PrevPeer, Children, Upper, IsPath, InRun, Before, Sub, SubUpTo;
    var k := Start(f, s).value;
    SubSplit(f, s, k, j);
    WholeRun(f, s, k, j);
    EndsWithPrev(f, s, j);
  }

  lemma WholeRun(f: Filter, s: Stack, k: nat, j: nat)
    requires FilterOk(f) && |s| < f.max && k <= j < |f.d.edges| && f.d.edges[j].last
    ensures SubUpTo(f, s, k, j + 1) == SubUpTo(f, s, k, j) + Sub(f, s, j)
  {
    hide Tree;
  }
}
