/** When the pattern filter lets through all it should (dictiter.c).  An element that has matched the
    last tile cannot start afresh on the next, so a word may be stopped although it matches: here is
    a condition on the pattern under which none is, and one under which some word is. */
module PatExact {
  import opened Wrappers
  import opened Dawg
  import opened PatFilter

  // ----- what the filter says of a word ---------------------------------------------------

  /** The sets kept for `ts`. */
  function Run(pat: Pat, blank: Tile, ts: seq<Tile>): (h: seq<ElemSet>)
    ensures |h| == |ts|
    decreases |ts|
  {
    if ts == [] then []
    else
      var n := |ts| - 1;
      var h := Run(pat, blank, ts[..n]);
      h + [Next(pat, blank, h, ts[..n], ts[n])]
  }

  /** The filter never stops `ts` and calls it finished at its end. */
  ghost predicate Passes(pat: Pat, blank: Tile, ts: seq<Tile>) {
    ts != [] && Traced(pat, blank, Run(pat, blank, ts), ts) && Finished(pat, Run(pat, blank, ts))
  }

  /** There is one history to a word. */
  lemma {:induction false} TracedIsRun(pat: Pat, blank: Tile, hist: seq<ElemSet>, ts: seq<Tile>)
    requires Traced(pat, blank, hist, ts)
    ensures hist == Run(pat, blank, ts)
    decreases |ts|
  {
    hide Next;
    if ts != [] {
      var n := |ts| - 1;
      TracedIsRun(pat, blank, hist[..n], ts[..n]);
      assert hist == hist[..n] + [hist[n]];
    }
  }

  /** A word that is not stopped is not stopped before. */
  lemma {:induction false} RunAlive(pat: Pat, blank: Tile, ts: seq<Tile>, m: nat)
    requires Traced(pat, blank, Run(pat, blank, ts), ts) && m < |ts|
    ensures Next(pat, blank, Run(pat, blank, ts[..m]), ts[..m], ts[m]) != {}
    decreases |ts|
  {
    hide Next;
    var n := |ts| - 1;
    assert Run(pat, blank, ts)[..n] == Run(pat, blank, ts[..n]);
    if m < n {
      RunAlive(pat, blank, ts[..n], m);
      assert ts[..n][..m] == ts[..m];
    }
  }

  /** Element `i` may have matched the last tile of `ts`. */
  predicate Hit(pat: Pat, blank: Tile, ts: seq<Tile>, i: nat) {
    ts != [] && i in Run(pat, blank, ts)[|ts| - 1]
  }

  function StreakAt(pat: Pat, blank: Tile, ts: seq<Tile>, i: nat): nat {
    Streak(Run(pat, blank, ts), i)
  }

  predicate LiveAt(pat: Pat, blank: Tile, ts: seq<Tile>, i: nat)
    requires i <= |pat|
  {
    Live(pat, Run(pat, blank, ts), i)
  }

  /** One tile more: who is hit, and with what streak. */
  lemma HitMore(pat: Pat, blank: Tile, ts: seq<Tile>, t: Tile, i: nat)
    ensures Hit(pat, blank, ts + [t], i) <==>
              i < |pat| && LiveAt(pat, blank, ts, i) && Matched(pat, blank, Run(pat, blank, ts), ts, i, t)
    ensures StreakAt(pat, blank, ts + [t], i) == if Hit(pat, blank, ts + [t], i) then 1 + StreakAt(pat, blank, ts, i) else 0
    ensures StreakAt(pat, blank, ts, i) > 0 <==> Hit(pat, blank, ts, i)
  {
    hide Live, Matched;
    assert (ts + [t])[..|ts|] == ts && (ts + [t])[|ts|] == t;
    var h := Run(pat, blank, ts);
    assert Run(pat, blank, ts + [t])[..|ts|] == h;
  }

  lemma LiveIs(pat: Pat, blank: Tile, ts: seq<Tile>, i: nat)
    requires i <= |pat|
    ensures LiveAt(pat, blank, ts, i) <==>
              || Hit(pat, blank, ts, i) || (ts == [] && i == 0)
              || (i > 0 && LiveAt(pat, blank, ts, i - 1) && StreakAt(pat, blank, ts, i - 1) >= pat[i - 1].minMatched)
  {
    hide Run;
  }

  /** If an element is hit then no set before was empty. */
  lemma {:induction false} HitTraced(pat: Pat, blank: Tile, ts: seq<Tile>, i: nat)
    requires Hit(pat, blank, ts, i)
    ensures Traced(pat, blank, Run(pat, blank, ts), ts)
    decreases |ts|
  {
    hide Next;
    var n := |ts| - 1;
    var prior := ts[..n];
    assert ts == prior + [ts[n]];
    HitMore(pat, blank, prior, ts[n], i);
    assert Run(pat, blank, ts)[..n] == Run(pat, blank, prior);
    if prior != [] {
      var j := HitBefore(pat, blank, prior, i);
      HitTraced(pat, blank, prior, j);
    }
  }

  lemma {:induction false} HitBefore(pat: Pat, blank: Tile, ts: seq<Tile>, i: nat) returns (j: nat)
    requires ts != [] && i <= |pat| && LiveAt(pat, blank, ts, i)
    ensures Hit(pat, blank, ts, j)
    decreases i
  {
    LiveIs(pat, blank, ts, i);
    j := i;
    if !Hit(pat, blank, ts, i) {
      j := HitBefore(pat, blank, ts, i - 1);
    }
  }

  // ----- splits ---------------------------------------------------------------------------

  predicate Optional(pat: Pat, lo: nat, hi: nat)
    requires hi <= |pat|
  {
    forall k :: lo <= k < hi ==> pat[k].minMatched == 0
  }

  /** The last block that is not empty. */
  lemma {:induction false} LastTaken(pat: Pat, blank: Tile, i: nat, ts: seq<Tile>) returns (e: nat, b: nat)
    requires i <= |pat| && UpTo(pat, blank, i, ts) && ts != []
    ensures e < i && b < |ts| && UpTo(pat, blank, e, ts[..b]) && Block(pat[e], blank, ts[b..]) && Optional(pat, e + 1, i)
    decreases i
  {
    hide Block;
    var n :| 0 <= n <= |ts| && Block(pat[i - 1], blank, ts[n..]) && UpTo(pat, blank, i - 1, ts[..n]);
    if n == |ts| {
      assert ts[..n] == ts && ts[n..] == [];
      EmptyIsOptional(pat[i - 1], blank);
      e, b := LastTaken(pat, blank, i - 1, ts);
    } else {
      e, b := i - 1, n;
    }
  }

  lemma EmptyIsOptional(elem: PatElem, blank: Tile)
    ensures Block(elem, blank, []) ==> elem.minMatched == 0
  {}

  /** Every tile of a match is in some element's block. */
  lemma {:induction false} Within(pat: Pat, blank: Tile, i: nat, ts: seq<Tile>, k: nat) returns (e: nat, a: nat)
    requires i <= |pat| && UpTo(pat, blank, i, ts) && 0 < k <= |ts|
    ensures e < i && a < k && UpTo(pat, blank, e, ts[..a]) && Part(pat[e], blank, ts[a..k])
    decreases i
  {
    hide Part;
    var n :| 0 <= n <= |ts| && Block(pat[i - 1], blank, ts[n..]) && UpTo(pat, blank, i - 1, ts[..n]);
    if n < k {
      PartFront(pat[i - 1], blank, ts[n..], k - n);
      assert ts[n..][..k - n] == ts[n..k];
      e, a := i - 1, n;
    } else {
      e, a := Within(pat, blank, i - 1, ts[..n], k);
      assert ts[..n][..a] == ts[..a] && ts[..n][a..k] == ts[a..k];
    }
  }

  lemma PartFront(elem: PatElem, blank: Tile, b: seq<Tile>, n: nat)
    requires Part(elem, blank, b) && n <= |b|
    ensures Part(elem, blank, b[..n])
  {
    assert b == b[..n] + b[n..];
    ExcessFront(elem, blank, b[..n], b[n..]);
  }

  lemma ExcessFront(elem: PatElem, blank: Tile, a: seq<Tile>, b: seq<Tile>)
    ensures |Excess(elem, blank, a)| <= |Excess(elem, blank, a + b)|
  {
    var more := Excess(elem, blank, a + b) - Excess(elem, blank, a);
    assert Excess(elem, blank, a) <= Excess(elem, blank, a + b);
    assert Excess(elem, blank, a + b) == Excess(elem, blank, a) + more;
  }

  // ----- one step of a match --------------------------------------------------------------

  /** The fewest tiles that the first `i` elements take. */
  function MinLen(pat: Pat, i: nat): nat
    requires i <= |pat|
  {
    if i == 0 then 0 else MinLen(pat, i - 1) + pat[i - 1].minMatched
  }

  lemma {:induction false} UpToLength(pat: Pat, blank: Tile, i: nat, ts: seq<Tile>)
    requires i <= |pat| && UpTo(pat, blank, i, ts)
    ensures |ts| >= MinLen(pat, i)
    decreases i
  {
    if i > 0 {
      var n :| 0 <= n <= |ts| && Block(pat[i - 1], blank, ts[n..]) && UpTo(pat, blank, i - 1, ts[..n]);
      UpToLength(pat, blank, i - 1, ts[..n]);
    }
  }

  lemma {:induction false} RaisedLength(pat: Pat, i: nat)
    requires i <= |pat|
    ensures MinLen(Raised(pat), i) == MinLen(pat, i)
    decreases i
  {
    if i > 0 {
      RaisedLength(pat, i - 1);
    }
  }

  /** No element is hit before the elements in front of it have had their fewest tiles. */
  lemma HitLate(pat: Pat, blank: Tile, ts: seq<Tile>, i: nat)
    requires NoBlanks(blank, ts) && Hit(pat, blank, ts, i)
    ensures i < |pat| && StreakAt(pat, blank, ts, i) + MinLen(pat, i) <= |ts|
  {
    hide UpTo, Traced, Part, MinLen;
    HitTraced(pat, blank, ts, i);
    StreakMatches(pat, blank, Run(pat, blank, ts), ts, i);
    UpToLength(Raised(pat), blank, i, ts[..|ts| - StreakAt(pat, blank, ts, i)]);
    RaisedLength(pat, i);
  }

  /** In a word of up to `n` tiles element `i` takes any tiles it fits, however often. */
  predicate Unlimited(pat: Pat, i: nat, n: nat)
    requires i < |pat|
  {
    !pat[i].single && MinLen(pat, i) + pat[i].maxMatched >= n
  }

  /** Having taken `ts[a..]`, element `i` has it as its streak, or may have a longer one that does
      not matter. */
  ghost predicate Follows(pat: Pat, blank: Tile, n: nat, ts: seq<Tile>, i: nat, a: nat)
    requires i < |pat| && a < |ts|
  {
    Hit(pat, blank, ts, i) &&
    (StreakAt(pat, blank, ts, i) == |ts| - a || (Unlimited(pat, i, n) && StreakAt(pat, blank, ts, i) >= |ts| - a))
  }

  /** A block begins at `t`, if the element is not already being matched. */
  lemma Begins(pat: Pat, blank: Tile, n: nat, ts: seq<Tile>, t: Tile, i: nat)
    requires i < |pat| && LiveAt(pat, blank, ts, i) && Part(pat[i], blank, [t]) && t != blank && NoBlanks(blank, ts) && |ts| < n
    requires Hit(pat, blank, ts, i) ==> Unlimited(pat, i, n)
    ensures Follows(pat, blank, n, ts + [t], i, |ts|)
  {
    hide Live, Run, TakeAll, TakeTile, MinLen;
    HitMore(pat, blank, ts, t, i);
    if Hit(pat, blank, ts, i) { HitLate(pat, blank, ts, i); }
    TakeMore(pat[i].tiles, blank, [], t);
    assert [] + [t] == [t] && [t][0] == t;
    assert StreakAt(pat, blank, ts, i) == 0 ==> ts[|ts| - StreakAt(pat, blank, ts, i)..] == [];
  }

  /** A block goes on at `t`. */
  lemma GoesOn(pat: Pat, blank: Tile, n: nat, ts: seq<Tile>, t: Tile, i: nat, a: nat)
    requires i < |pat| && a < |ts| < n && Follows(pat, blank, n, ts, i, a)
    requires Part(pat[i], blank, ts[a..] + [t]) && t != blank && NoBlanks(blank, ts)
    ensures Follows(pat, blank, n, ts + [t], i, a)
  {
    hide Run, TakeAll, TakeTile, Live, MinLen;
    HitMore(pat, blank, ts, t, i);
    HitLate(pat, blank, ts, i);
    LiveIs(pat, blank, ts, i);
    TakeMore(pat[i].tiles, blank, ts[a..], t);
    assert (ts[a..] + [t])[|ts| - a] == t;
  }

  /** An element that is hit fits the last tile. */
  lemma HitFits(pat: Pat, blank: Tile, ts: seq<Tile>, i: nat)
    requires Hit(pat, blank, ts, i)
    ensures i < |pat| && Fits(pat[i], blank, ts[|ts| - 1])
  {
    hide Live, Fits;
    var k := |ts| - 1;
    assert ts == ts[..k] + [ts[k]];
    HitMore(pat, blank, ts[..k], ts[k], i);
  }

  // ----- completeness ---------------------------------------------------------------------

  /** Element `l` is the first, or must take a tile and takes none that fits an earlier one. */
  ghost predicate Landmark(pat: Pat, blank: Tile, l: nat)
    requires l < |pat|
  {
    l == 0 || (pat[l].minMatched > 0 && forall g :: 0 <= g < l ==> Apart(pat[g], pat[l], blank))
  }

  predicate FixedFrom(pat: Pat, l: nat, i: nat)
    requires i <= |pat|
  {
    forall k :: l <= k < i ==> pat[k].minMatched == pat[k].maxMatched
  }

  /** From a landmark on, all elements before `i` take a fixed number of tiles. */
  ghost predicate Anchored(pat: Pat, blank: Tile, i: nat)
    requires i < |pat|
  {
    exists l :: 0 <= l <= i && Landmark(pat, blank, l) && FixedFrom(pat, l, i)
  }

  /** Where a match of the first `i` elements has the start of element `l`. */
  lemma {:induction false} PrefixSplit(pat: Pat, blank: Tile, l: nat, i: nat, ts: seq<Tile>) returns (s: nat)
    requires l <= i <= |pat| && UpTo(pat, blank, i, ts)
    ensures s <= |ts| && UpTo(pat, blank, l, ts[..s])
    ensures |ts| - s >= MinLen(pat, i) - MinLen(pat, l)
    ensures FixedFrom(pat, l, i) ==> |ts| - s == MinLen(pat, i) - MinLen(pat, l)
    ensures l < i && pat[l].minMatched > 0 ==> s < |ts| && Fits(pat[l], blank, ts[s])
    decreases i
  {
    if l == i {
      s := |ts|;
      assert ts[..s] == ts;
    } else {
      var n :| 0 <= n <= |ts| && Block(pat[i - 1], blank, ts[n..]) && UpTo(pat, blank, i - 1, ts[..n]);
      s := PrefixSplit(pat, blank, l, i - 1, ts[..n]);
      assert ts[..n][..s] == ts[..s];
      if l == i - 1 && pat[l].minMatched > 0 {
        assert ts[n..][0] == ts[n];
      }
    }
  }

  /** No tile but the blank fits both. */
  ghost predicate Apart(x: PatElem, y: PatElem, blank: Tile) {
    forall t: Tile :: t != blank && Fits(x, blank, t) ==> !Fits(y, blank, t)
  }

  /** No element need start afresh on a tile that follows one it may have matched: where only
      optional elements lie between two, no tile fits both, or the later one is unlimited, or the
      place where it starts cannot be mistaken. */
  ghost predicate NoRestart(pat: Pat, blank: Tile, n: nat) {
    forall j, i :: 0 <= j < i < |pat| && Optional(pat, j + 1, i) ==>
      Unlimited(pat, i, n) || Apart(pat[j], pat[i], blank) || Anchored(pat, blank, i)
  }

  /** The tiles up to any point of a match are followed by the filter. */
  lemma {:induction false} PartFollowed(pat: Pat, blank: Tile, n: nat, ts: seq<Tile>, i: nat, a: nat)
    requires NoRestart(pat, blank, n) && NoBlanks(blank, ts) && |ts| <= n
    requires i < |pat| && a < |ts| && UpTo(pat, blank, i, ts[..a]) && Part(pat[i], blank, ts[a..])
    ensures Follows(pat, blank, n, ts, i, a)
    decreases |ts|, 0, 0
  {
    hide Part, UpTo, Follows, NoRestart, Run;
    var k := |ts| - 1;
    var prior, t := ts[..k], ts[k];
    assert ts == prior + [t];
    if a == k {
      assert ts[a..] == [t];
      ReachedLive(pat, blank, n, prior, i);
      if Hit(pat, blank, prior, i) {
        SharedTile(pat, blank, n, prior, i, i);
      }
      Begins(pat, blank, n, prior, t, i);
    } else {
      assert prior[..a] == ts[..a] && ts[a..] == prior[a..] + [t];
      PartFront(pat[i], blank, ts[a..], k - a);
      assert ts[a..][..k - a] == prior[a..];
      PartFollowed(pat, blank, n, prior, i, a);
      GoesOn(pat, blank, n, prior, t, i, a);
    }
  }

  /** Where a match has been through the first `i` elements, element `i` is tried. */
  lemma {:induction false} ReachedLive(pat: Pat, blank: Tile, n: nat, ts: seq<Tile>, i: nat)
    requires NoRestart(pat, blank, n) && NoBlanks(blank, ts) && |ts| <= n && i <= |pat| && UpTo(pat, blank, i, ts)
    ensures LiveAt(pat, blank, ts, i)
    decreases |ts|, 1, 0
  {
    hide UpTo, Follows, NoRestart, Part, LiveAt, Run;
    if ts == [] {
      StartLive(pat, blank, i);
    } else {
      var e, b := LastTaken(pat, blank, i, ts);
      PartFollowed(pat, blank, n, ts, e, b);
      BlockLive(pat, blank, n, ts, e, b, i);
    }
  }

  lemma {:induction false} SkipLive(pat: Pat, blank: Tile, ts: seq<Tile>, e: nat, i: nat)
    requires e <= i <= |pat| && LiveAt(pat, blank, ts, e) && Optional(pat, e, i)
    ensures LiveAt(pat, blank, ts, i)
    decreases i
  {
    hide LiveAt;
    if e < i {
      SkipLive(pat, blank, ts, e, i - 1);
      LiveIs(pat, blank, ts, i);
    }
  }

  lemma StartLive(pat: Pat, blank: Tile, i: nat)
    requires i <= |pat| && UpTo(pat, blank, i, [])
    ensures LiveAt(pat, blank, [], i)
  {
    AllOptional(pat, blank, i);
    LiveIs(pat, blank, [], 0);
    SkipLive(pat, blank, [], 0, i);
  }

  lemma {:induction false} AllOptional(pat: Pat, blank: Tile, i: nat)
    requires i <= |pat| && UpTo(pat, blank, i, [])
    ensures Optional(pat, 0, i)
    decreases i
  {
    if i > 0 {
      AllOptional(pat, blank, i - 1);
    }
  }

  /** After a whole block of `e` the elements behind it are tried. */
  lemma BlockLive(pat: Pat, blank: Tile, n: nat, ts: seq<Tile>, e: nat, b: nat, i: nat)
    requires e < i <= |pat| && b < |ts| && Follows(pat, blank, n, ts, e, b) && |ts| - b >= pat[e].minMatched
    requires Optional(pat, e + 1, i)
    ensures LiveAt(pat, blank, ts, i)
  {
    hide Run, LiveAt;
    LiveIs(pat, blank, ts, e);
    LiveIs(pat, blank, ts, e + 1);
    SkipLive(pat, blank, ts, e + 1, i);
  }

  /** An element hit beyond the one that the match is in must be unlimited. */
  lemma SharedTile(pat: Pat, blank: Tile, n: nat, ts: seq<Tile>, i: nat, h: nat)
    requires NoRestart(pat, blank, n) && NoBlanks(blank, ts) && i <= |pat| && ts != [] && UpTo(pat, blank, i, ts)
    requires h < |pat| && Hit(pat, blank, ts, h) && i <= h && Optional(pat, i, h)
    ensures Unlimited(pat, h, n)
  {
    hide UpTo, Unlimited, Run, Anchored;
    SkipOptional(pat, blank, i, h, ts);
    if Anchored(pat, blank, h) {
      AnchoredNotHit(pat, blank, ts, h);
    }
    var e, b := LastTaken(pat, blank, i, ts);
    HitFits(pat, blank, ts, h);
    var t := ts[|ts| - 1];
    assert ts[b..][|ts| - 1 - b] == t && Fits(pat[e], blank, t);
    assert Optional(pat, e + 1, h);
  }

  /** Where a match has come to an element that is anchored, that element is not hit. */
  lemma AnchoredNotHit(pat: Pat, blank: Tile, ts: seq<Tile>, i: nat)
    requires i < |pat| && NoBlanks(blank, ts) && Anchored(pat, blank, i) && UpTo(pat, blank, i, ts)
    ensures !Hit(pat, blank, ts, i)
  {
    hide Run, UpTo, Part, Traced, MinLen, Apart, Fits;
    if Hit(pat, blank, ts, i) {
      var l :| 0 <= l <= i && Landmark(pat, blank, l) && FixedFrom(pat, l, i);
      HitMoreThanNone(pat, blank, ts, i);
      var other := HitFrom(pat, blank, ts, i, l);
      var own := PrefixSplit(pat, blank, l, i, ts);
      TwoStarts(pat, blank, l, ts, own, other);
    }
  }

  /** By way of the hit, element `l` starts where it could not in the match. */
  lemma HitFrom(pat: Pat, blank: Tile, ts: seq<Tile>, i: nat, l: nat) returns (s: nat)
    requires NoBlanks(blank, ts) && Hit(pat, blank, ts, i) && l <= i < |pat|
    ensures s < |ts| && s + MinLen(pat, i) - MinLen(pat, l) < |ts|
    ensures l == i || pat[l].minMatched > 0 ==> Fits(pat[l], blank, ts[s])
  {
    hide Run, UpTo, Traced, MinLen;
    HitTraced(pat, blank, ts, i);
    HitMoreThanNone(pat, blank, ts, i);
    StreakMatches(pat, blank, Run(pat, blank, ts), ts, i);
    var n := |ts| - StreakAt(pat, blank, ts, i);
    RaisedLength(pat, i);
    RaisedLength(pat, l);
    s := PrefixSplit(Raised(pat), blank, l, i, ts[..n]);
    FitsRaised(pat, blank, l);
    FitsRaised(pat, blank, i);
    if l == i {
      assert ts[n..][0] == ts[n];
    }
  }

  lemma FitsRaised(pat: Pat, blank: Tile, l: nat)
    requires l < |pat|
    ensures Raised(pat)[l].minMatched == pat[l].minMatched
    ensures forall t :: Fits(Raised(pat)[l], blank, t) <==> Fits(pat[l], blank, t)
  {}

  lemma TwoStarts(pat: Pat, blank: Tile, l: nat, ts: seq<Tile>, own: nat, other: nat)
    requires l < |pat| && other < own <= |ts| && UpTo(pat, blank, l, ts[..own]) && NoBlanks(blank, ts)
    requires Landmark(pat, blank, l) && (l > 0 ==> Fits(pat[l], blank, ts[other]))
    ensures false
  {
    if l > 0 {
      var e, a := Within(pat, blank, l, ts[..own], other + 1);
      assert ts[..own][a..other + 1][other - a] == ts[other];
    }
  }

  lemma HitMoreThanNone(pat: Pat, blank: Tile, ts: seq<Tile>, i: nat)
    requires Hit(pat, blank, ts, i)
    ensures StreakAt(pat, blank, ts, i) > 0
  {}

  /** Every word of up to `n` tiles that matches passes. */
  lemma FilterComplete(pat: Pat, blank: Tile, n: nat, ts: seq<Tile>)
    requires NoRestart(pat, blank, n) && NoBlanks(blank, ts) && 0 < |ts| <= n && Matches(pat, blank, ts)
    ensures Passes(pat, blank, ts)
  {
    hide UpTo, NoRestart, Run, Part, Traced;
    var e, b := LastTaken(pat, blank, |pat|, ts);
    PartFollowed(pat, blank, n, ts, e, b);
    HitTraced(pat, blank, ts, e);
    EndsFinished(pat, blank, n, ts, e, b);
  }

  lemma EndsFinished(pat: Pat, blank: Tile, n: nat, ts: seq<Tile>, e: nat, b: nat)
    requires NoRestart(pat, blank, n) && NoBlanks(blank, ts) && |ts| <= n && e < |pat| && b < |ts|
    requires UpTo(pat, blank, e, ts[..b]) && Block(pat[e], blank, ts[b..]) && Optional(pat, e + 1, |pat|)
    requires Follows(pat, blank, n, ts, e, b)
    ensures Finished(pat, Run(pat, blank, ts))
  {
    hide UpTo, NoRestart, Run;
    var last := Run(pat, blank, ts)[|ts| - 1];
    LastInFinds(pat, last, |pat|, e);
    var i := LastIn(pat, last, |pat|).value;
    HitLate(pat, blank, ts, i);
    if i > e {
      LastBlock(pat, blank, e, ts, b);
      SharedTile(pat, blank, n, ts, e + 1, i);
    }
  }

  lemma {:induction false} LastInFinds(pat: Pat, s: ElemSet, n: nat, e: nat)
    requires e < n <= |pat| && e in s && Optional(pat, e + 1, n)
    ensures LastIn(pat, s, n).Some? && e <= LastIn(pat, s, n).value
    decreases n
  {
    if n - 1 !in s {
      LastInFinds(pat, s, n - 1, e);
    }
  }

  /** Where no element need start afresh and none is limited to zero tiles, the filter lets a word
      through exactly if it matches. */
  lemma FilterExact(pat: Pat, blank: Tile, n: nat, ts: seq<Tile>)
    requires NoRestart(pat, blank, n) && NoBlanks(blank, ts) && 0 < |ts| <= n
    ensures Matches(pat, blank, ts) ==> Passes(pat, blank, ts)
    ensures Passes(pat, blank, ts) ==> Matches(Raised(pat), blank, ts)
    ensures PositiveMax(pat) ==> (Passes(pat, blank, ts) <==> Matches(pat, blank, ts))
  {
    hide Matches, NoRestart, Traced, Finished;
    if Matches(pat, blank, ts) {
      FilterComplete(pat, blank, n, ts);
    }
    if Passes(pat, blank, ts) {
      FilterSound(pat, blank, Run(pat, blank, ts), ts);
    }
  }

  // ----- and when it does not -------------------------------------------------------------

  /** A match that gives every element its fewest tiles is followed by the filter, whatever the
      pattern. */
  lemma {:induction false} LeastFollowed(pat: Pat, blank: Tile, n: nat, ts: seq<Tile>, i: nat, a: nat)
    requires NoBlanks(blank, ts) && |ts| <= n && i < |pat| && a < |ts| && a == MinLen(pat, i)
    requires UpTo(pat, blank, i, ts[..a]) && Part(pat[i], blank, ts[a..])
    ensures Follows(pat, blank, n, ts, i, a)
    decreases |ts|, 0, 0
  {
    hide Part, UpTo, Follows, Run, MinLen;
    var k := |ts| - 1;
    var prior, t := ts[..k], ts[k];
    assert ts == prior + [t];
    if a == k {
      assert ts[a..] == [t];
      LeastLive(pat, blank, n, prior, i);
      LeastNotHit(pat, blank, prior, i);
      Begins(pat, blank, n, prior, t, i);
    } else {
      assert prior[..a] == ts[..a] && ts[a..] == prior[a..] + [t];
      PartFront(pat[i], blank, ts[a..], k - a);
      assert ts[a..][..k - a] == prior[a..];
      LeastFollowed(pat, blank, n, prior, i, a);
      GoesOn(pat, blank, n, prior, t, i, a);
    }
  }

  lemma {:induction false} LeastLive(pat: Pat, blank: Tile, n: nat, ts: seq<Tile>, i: nat)
    requires NoBlanks(blank, ts) && |ts| <= n && i <= |pat| && |ts| == MinLen(pat, i) && UpTo(pat, blank, i, ts)
    ensures LiveAt(pat, blank, ts, i)
    decreases |ts|, 1, 0
  {
    hide UpTo, Follows, Part, LiveAt, Run, MinLen;
    if ts == [] {
      StartLive(pat, blank, i);
    } else {
      var e, b := LastTaken(pat, blank, i, ts);
      UpToLength(pat, blank, e, ts[..b]);
      LeastOfLast(pat, e, i);
      LeastFollowed(pat, blank, n, ts, e, b);
      BlockLive(pat, blank, n, ts, e, b, i);
    }
  }

  lemma {:induction false} LeastOfLast(pat: Pat, e: nat, i: nat)
    requires e < i <= |pat| && Optional(pat, e + 1, i)
    ensures MinLen(pat, i) == MinLen(pat, e) + pat[e].minMatched
    decreases i
  {
    if e + 1 < i {
      LeastOfLast(pat, e, i - 1);
    }
  }

  lemma LeastNotHit(pat: Pat, blank: Tile, ts: seq<Tile>, i: nat)
    requires NoBlanks(blank, ts) && i < |pat| && |ts| <= MinLen(pat, i)
    ensures !Hit(pat, blank, ts, i)
  {
    hide Run, MinLen;
    if Hit(pat, blank, ts, i) {
      HitMoreThanNone(pat, blank, ts, i);
      HitLate(pat, blank, ts, i);
    }
  }

  /** Tiles that go on with the block begun at `a`. */
  lemma {:induction false} Streaks(pat: Pat, blank: Tile, n: nat, ts: seq<Tile>, i: nat, a: nat, more: seq<Tile>)
    requires NoBlanks(blank, ts + more) && |ts + more| <= n && i < |pat| && a < |ts| && Follows(pat, blank, n, ts, i, a)
    requires Part(pat[i], blank, ts[a..] + more)
    ensures Follows(pat, blank, n, ts + more, i, a)
    decreases |more|
  {
    hide Part, Follows, Run;
    if more == [] {
      assert ts + more == ts;
    } else {
      var k := |more| - 1;
      var most := ts + more[..k];
      LastApart(ts, more);
      PartFront(pat[i], blank, ts[a..] + more, |ts| - a + k);
      assert (ts[a..] + more)[..|ts| - a + k] == ts[a..] + more[..k];
      Streaks(pat, blank, n, ts, i, a, more[..k]);
      assert most[a..] + [more[k]] == ts[a..] + more;
      GoesOn(pat, blank, n, most, more[k], i, a);
    }
  }

  lemma LastApart(ts: seq<Tile>, more: seq<Tile>)
    requires more != []
    ensures ts + more == (ts + more[..|more| - 1]) + [more[|more| - 1]]
    ensures forall b :: NoBlanks(b, ts + more) ==> NoBlanks(b, ts + more[..|more| - 1]) && more[|more| - 1] != b
  {
    assert forall k :: 0 <= k < |more| ==> (ts + more)[|ts| + k] == more[k];
    assert forall k :: 0 <= k < |ts| ==> (ts + more)[k] == ts[k];
  }

  /** When the block is full, the element is not hit by the next tile. */
  lemma FullStops(pat: Pat, blank: Tile, n: nat, ts: seq<Tile>, d: Tile, i: nat, a: nat)
    requires i < |pat| && a < |ts| && Follows(pat, blank, n, ts, i, a) && !Unlimited(pat, i, n)
    requires NoBlanks(blank, ts) && d != blank && Part(pat[i], blank, ts[a..]) && !Part(pat[i], blank, ts[a..] + [d])
    ensures !Hit(pat, blank, ts + [d], i)
  {
    hide Run, Live, Part, MinLen, TakeAll, TakeTile, Fits;
    HitMore(pat, blank, ts, d, i);
    if Hit(pat, blank, ts + [d], i) {
      PartGrows(pat[i], blank, ts[a..], d);
    }
  }

  /** Suppose the elements before the last can take `u`, the fewest tiles they may, and also `u` and
      a tile `t` that fits the last.  The last is then hit at `t`, and a block of its own that is
      full, and begins only behind `t`, has no room: the word is stopped although it matches. */
  lemma RestartLoses(pat: Pat, blank: Tile, u: seq<Tile>, t: Tile, y: seq<Tile>)
    requires pat != [] && y != [] && NoBlanks(blank, u + [t] + y)
    requires var i := |pat| - 1;
             && UpTo(pat, blank, i, u) && |u| == MinLen(pat, i) && UpTo(pat, blank, i, u + [t])
             && Block(pat[i], blank, y) && Part(pat[i], blank, [t] + y[..|y| - 1]) && !Part(pat[i], blank, [t] + y)
    requires forall k :: 0 <= k < |pat| - 1 && Optional(pat, k + 1, |pat|) ==> !Fits(pat[k], blank, y[|y| - 1])
    ensures Matches(pat, blank, u + [t] + y) && !Passes(pat, blank, u + [t] + y)
  {
    hide UpTo, Part, Run, Follows, MinLen, Traced, Fits, Finished;
    var i, m := |pat| - 1, |y| - 1;
    var ts, v := u + [t] + y, u + [t];
    assert ts[|v|..] == y && ts[..|v|] == v;
    LastBlock(pat, blank, i, ts, |v|);
    RestartNotHit(pat, blank, u, t, y);
    if Passes(pat, blank, ts) {
      LastHit(pat, blank, ts);
    }
  }

  lemma LastHit(pat: Pat, blank: Tile, ts: seq<Tile>)
    requires pat != [] && Passes(pat, blank, ts)
    ensures exists k :: 0 <= k < |pat| && Hit(pat, blank, ts, k) && Optional(pat, k + 1, |pat|) && Fits(pat[k], blank, ts[|ts| - 1])
  {
    hide Run, Fits, Traced;
    var k := LastIn(pat, Run(pat, blank, ts)[|ts| - 1], |pat|).value;
    HitFits(pat, blank, ts, k);
  }

  lemma RestartNotHit(pat: Pat, blank: Tile, u: seq<Tile>, t: Tile, y: seq<Tile>)
    requires pat != [] && y != [] && NoBlanks(blank, u + [t] + y)
    requires var i := |pat| - 1;
             && UpTo(pat, blank, i, u) && |u| == MinLen(pat, i)
             && Part(pat[i], blank, [t] + y[..|y| - 1]) && !Part(pat[i], blank, [t] + y)
    ensures !Hit(pat, blank, u + [t] + y, |pat| - 1)
  {
    hide UpTo, Part, Run, Follows, MinLen, LiveAt;
    var i, m := |pat| - 1, |y| - 1;
    var n := |u| + 1 + |y| + MinLen(pat, i) + pat[i].maxMatched + 1;
    var v := u + [t];
    LastApart(v, y);
    var w := v + y[..m];
    assert w[..|u|] == u && w[|u|] == t;
    assert NoBlanks(blank, u) by { assert forall k :: 0 <= k < |u| ==> w[k] == u[k]; }
    LeastLive(pat, blank, n, u, i);
    LeastNotHit(pat, blank, u, i);
    PartFront(pat[i], blank, [t] + y[..m], 1);
    assert ([t] + y[..m])[..1] == [t];
    Begins(pat, blank, n, u, t, i);
    assert v[|u|..] == [t];
    Streaks(pat, blank, n, v, i, |u|, y[..m]);
    assert w[|u|..] == [t] + y[..m] && [t] + y == ([t] + y[..m]) + [y[m]];
    FullStops(pat, blank, n, w, y[m], i, |u|);
  }

  /** In particular when an element before the last, with only optional ones between, may take one
      tile more that fits both. */
  lemma PairLoses(pat: Pat, blank: Tile, j: nat, u: seq<Tile>, x: seq<Tile>, t: Tile, y: seq<Tile>)
    requires pat != [] && y != [] && NoBlanks(blank, u + x + [t] + y)
    requires j < |pat| - 1 && Optional(pat, j + 1, |pat| - 1) && UpTo(pat, blank, j, u) && |u| == MinLen(pat, j)
    requires Block(pat[j], blank, x) && |x| == pat[j].minMatched && Block(pat[j], blank, x + [t])
    requires var i := |pat| - 1;
             Block(pat[i], blank, y) && Part(pat[i], blank, [t] + y[..|y| - 1]) && !Part(pat[i], blank, [t] + y)
    requires forall k :: 0 <= k < |pat| - 1 && Optional(pat, k + 1, |pat|) ==> !Fits(pat[k], blank, y[|y| - 1])
    ensures Matches(pat, blank, u + x + [t] + y) && !Passes(pat, blank, u + x + [t] + y)
  {
    hide Block, Part, UpTo, Passes, Fits;
    var i := |pat| - 1;
    var v, w := u + x, u + (x + [t]);
    assert v[|u|..] == x && v[..|u|] == u && w[|u|..] == x + [t] && w[..|u|] == u && v + [t] == w;
    LastBlock(pat, blank, j, v, |u|);
    LastBlock(pat, blank, j, w, |u|);
    SkipOptional(pat, blank, j + 1, i, v);
    SkipOptional(pat, blank, j + 1, i, w);
    LeastOfLast(pat, j, i);
    RestartLoses(pat, blank, v, t, y);
  }

  // ----- exactly when -----------------------------------------------------------------------

  /** No word of up to `n` tiles that matches is stopped. */
  ghost predicate LetsAll(pat: Pat, blank: Tile, n: nat) {
    forall ts :: NoBlanks(blank, ts) && 0 < |ts| <= n && Matches(pat, blank, ts) ==> Passes(pat, blank, ts)
  }

  /** Every element may be used again and again, and some tile fits it. */
  ghost predicate Plain(pat: Pat, blank: Tile) {
    forall k :: 0 <= k < |pat| ==>
      !pat[k].single && pat[k].minMatched <= pat[k].maxMatched && exists t: Tile :: t != blank && Fits(pat[k], blank, t)
  }

  function Repeated(t: Tile, k: nat): (ts: seq<Tile>)
    ensures |ts| == k && forall i :: 0 <= i < k ==> ts[i] == t
  {
    seq(k, _ => t)
  }

  lemma RepeatedFits(elem: PatElem, blank: Tile, t: Tile, k: nat)
    requires !elem.single && Fits(elem, blank, t) && k <= elem.maxMatched
    ensures Part(elem, blank, Repeated(t, k)) && (elem.minMatched <= k ==> Block(elem, blank, Repeated(t, k)))
  {
    hide Repeated;
  }

  /** A word that gives each of the first `i` elements its fewest tiles. */
  lemma {:induction false} LeastWord(pat: Pat, blank: Tile, i: nat) returns (u: seq<Tile>)
    requires Plain(pat, blank) && i <= |pat|
    ensures UpTo(pat, blank, i, u) && |u| == MinLen(pat, i) && NoBlanks(blank, u)
    decreases i
  {
    hide Fits, Block, Repeated;
    if i == 0 {
      u := [];
    } else {
      var v := LeastWord(pat, blank, i - 1);
      var t: Tile :| t != blank && Fits(pat[i - 1], blank, t);
      var x := Repeated(t, pat[i - 1].minMatched);
      RepeatedFits(pat[i - 1], blank, t, pat[i - 1].minMatched);
      u := v + x;
      assert u[..|v|] == v && u[|v|..] == x;
      LastBlock(pat, blank, i - 1, u, |v|);
    }
  }

  /** After elements of fixed length one more, and then the last, which must take a tile: no word is
      lost exactly if no tile fits both, or the former's length is fixed too, or the latter's limit
      is beyond `n` tiles. */
  lemma LastExact(pat: Pat, blank: Tile, n: nat)
    requires |pat| >= 2 && Plain(pat, blank) && FixedFrom(pat, 0, |pat| - 2)
    requires pat[|pat| - 1].minMatched > 0 && (|pat| > 2 ==> pat[|pat| - 2].minMatched > 0)
    ensures var i := |pat| - 1;
            LetsAll(pat, blank, n) <==>
              || Apart(pat[i - 1], pat[i], blank)
              || pat[i - 1].minMatched == pat[i - 1].maxMatched
              || MinLen(pat, i) + pat[i].maxMatched >= n
  {
    hide Apart, MinLen, Matches, Passes;
    var i := |pat| - 1;
    if Apart(pat[i - 1], pat[i], blank) || FixedFrom(pat, 0, i) || MinLen(pat, i) + pat[i].maxMatched >= n {
      OnlyLastPair(pat, blank, n);
      forall ts | NoBlanks(blank, ts) && 0 < |ts| <= n && Matches(pat, blank, ts)
        ensures Passes(pat, blank, ts)
      {
        FilterComplete(pat, blank, n, ts);
      }
    } else {
      var ts := LostWord(pat, blank);
    }
  }

  lemma OnlyLastPair(pat: Pat, blank: Tile, n: nat)
    requires |pat| >= 2 && Plain(pat, blank) && FixedFrom(pat, 0, |pat| - 2)
    requires |pat| > 2 ==> pat[|pat| - 2].minMatched > 0
    requires var i := |pat| - 1;
             Apart(pat[i - 1], pat[i], blank) || FixedFrom(pat, 0, i) || MinLen(pat, i) + pat[i].maxMatched >= n
    ensures NoRestart(pat, blank, n)
  {
    hide Apart, MinLen;
    forall j, i | 0 <= j < i < |pat| && Optional(pat, j + 1, i)
      ensures Unlimited(pat, i, n) || Apart(pat[j], pat[i], blank) || Anchored(pat, blank, i)
    {
      assert Landmark(pat, blank, 0);
      if i < |pat| - 1 || FixedFrom(pat, 0, i) {
        assert FixedFrom(pat, 0, i);
      }
    }
  }

  lemma LostWord(pat: Pat, blank: Tile) returns (ts: seq<Tile>)
    requires |pat| >= 2 && Plain(pat, blank) && pat[|pat| - 1].minMatched > 0
    requires pat[|pat| - 2].minMatched < pat[|pat| - 2].maxMatched && !Apart(pat[|pat| - 2], pat[|pat| - 1], blank)
    ensures |ts| == MinLen(pat, |pat| - 1) + 1 + pat[|pat| - 1].maxMatched && NoBlanks(blank, ts)
    ensures Matches(pat, blank, ts) && !Passes(pat, blank, ts)
  {
    hide Fits, Block, Repeated, Matches, Passes, UpTo;
    var i := |pat| - 1;
    var t: Tile :| t != blank && Fits(pat[i - 1], blank, t) && Fits(pat[i], blank, t);
    var u := LeastWord(pat, blank, i - 1);
    var j, least, most := i - 1, pat[i - 1].minMatched, pat[i].maxMatched;
    var x, y := Repeated(t, least), Repeated(t, most);
    RepeatedFits(pat[j], blank, t, least);
    RepeatedFits(pat[j], blank, t, least + 1);
    RepeatedFits(pat[i], blank, t, most);
    assert x + [t] == Repeated(t, least + 1);
    assert [t] + y[..most - 1] == y;
    TooLong(pat[i], blank, [t] + y);
    ts := u + x + [t] + y;
    PairLoses(pat, blank, j, u, x, t, y);
  }

  lemma TooLong(elem: PatElem, blank: Tile, b: seq<Tile>)
    requires |b| > elem.maxMatched
    ensures !Part(elem, blank, b)
  {}
}
