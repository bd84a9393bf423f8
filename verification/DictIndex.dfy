/** Positions in the list of an iterator's words, and the index of word prefixes (dictiter.c). */
module DictIndex {
  import opened Wrappers
  import opened Dawg
  import opened PatFilter
  import opened DictPaths
  import opened DictWords

  // ----- the word at a position -------------------------------------------------------------

  lemma AscendingDistinct(d: Dict, l: seq<Stack>, i: nat, j: nat)
    requires Ascending(d, l) && i < |l| && j < |l| && l[i] == l[j]
    ensures i == j
  {
    hide Less;
    assert i < j ==> Less(Word(d, l[i]), Word(d, l[j]));
    assert j < i ==> Less(Word(d, l[j]), Word(d, l[i]));
    NotLessSelf(Word(d, l[i]));
  }

  /** What is reported before and after a path. */
  lemma WordsCut(f: Filter, s: Stack)
    requires FilterOk(f) && IsPath(f, s)
    ensures WordList(f) == Words(f, Before(f, s)) + (if Reported(f, s) then [s] else []) + Words(f, After(f, s))
  {
    hide HasMatch, IsPath, Reported, Words, All, Before, After;
    CutAt(f, s);
    WordsConcat(f, Before(f, s) + [s], After(f, s));
    WordsConcat(f, Before(f, s), [s]);
    WordsOne(f, s);
  }

  /** At position `i` the words before and after the path are the rest of the list. */
  lemma AtPosition(f: Filter, i: nat)
    requires FilterOk(f) && i < |WordList(f)|
    ensures var s := WordList(f)[i];
            s != [] && IsPath(f, s) && Words(f, Before(f, s)) == WordList(f)[..i] && Words(f, After(f, s)) == WordList(f)[i + 1..]
  {
    hide HasMatch, IsPath, Words, Reported, All, Before, After, Ascending;
    var ws := WordList(f);
    var s := ws[i];
    ListedPath(f, s);
    WordsCut(f, s);
    InOrder(f);
    AscendingDistinct(f.d, ws, i, |Words(f, Before(f, s))|);
  }

  // ----- prefixes ---------------------------------------------------------------------------

  predicate StartsWith(w: seq<Tile>, prefix: seq<Tile>) {
    |prefix| <= |w| && w[..|prefix|] == prefix
  }

  /** A word between a prefix and a word with that prefix has the prefix too. */
  lemma BetweenPrefix(prefix: seq<Tile>, w: seq<Tile>, upper: seq<Tile>)
    requires StartsWith(upper, prefix) && (w == prefix || Less(prefix, w)) && (w == upper || Less(w, upper))
    ensures StartsWith(w, prefix)
  {
    if w != prefix && w != upper {
      var n: nat :| LessAt(prefix, w, n);
      var m: nat :| LessAt(w, upper, m);
      if n < |prefix| {
        NothingBetween(prefix, w, upper, n, m);
      }
    }
  }

  lemma NothingBetween(prefix: seq<Tile>, w: seq<Tile>, upper: seq<Tile>, n: nat, m: nat)
    requires StartsWith(upper, prefix) && LessAt(prefix, w, n) && LessAt(w, upper, m) && n < |prefix|
    ensures false
  {
    assert upper[..|prefix|] == prefix;
    if m <= n {
      assert w[..m] == prefix[..m];
    } else {
      assert w[n] == upper[..m][n] == prefix[n];
    }
  }

  lemma NotLessThanPrefix(prefix: seq<Tile>, w: seq<Tile>)
    requires StartsWith(w, prefix)
    ensures !Less(w, prefix)
  {
    if Less(w, prefix) {
      var n: nat :| LessAt(w, prefix, n);
      NotBelowPrefix(prefix, w, n);
    }
  }

  lemma NotBelowPrefix(prefix: seq<Tile>, w: seq<Tile>, n: nat)
    requires StartsWith(w, prefix) && LessAt(w, prefix, n)
    ensures false
  {
    assert w[..|prefix|] == prefix;
    assert n < |w| && w[n] == prefix[n];
  }

  /** The first word reported from `s` on has the word of `s` as prefix, and no earlier one has,
      if any word has. */
  lemma FirstFrom(f: Filter, s: Stack, i: nat)
    requires FilterOk(f) && IsPath(f, s) && i < |WordList(f)| && StartsWith(Word(f.d, WordList(f)[i]), Word(f.d, s))
    requires i == 0 || !StartsWith(Word(f.d, WordList(f)[i - 1]), Word(f.d, s))
    ensures i == |Words(f, Before(f, s))|
  {
    hide HasMatch, IsPath, Words, Reported, All, Before, After, Less, LessAt;
    var ws, p := WordList(f), Word(f.d, s);
    var n := |Words(f, Before(f, s))|;
    WordsCut(f, s);
    InOrder(f);
    if i < n {
      EarlierLess(f, s, i);
      NotLessThanPrefix(p, Word(f.d, ws[i]));
    } else if n < i {
      LaterLess(f, s, n);
      LaterLess(f, s, i - 1);
      assert Less(Word(f.d, ws[i - 1]), Word(f.d, ws[i]));
      BetweenPrefix(p, Word(f.d, ws[i - 1]), Word(f.d, ws[i]));
    }
  }

  lemma EarlierLess(f: Filter, s: Stack, i: nat)
    requires FilterOk(f) && IsPath(f, s) && i < |Words(f, Before(f, s))| && i < |WordList(f)|
    ensures Less(Word(f.d, WordList(f)[i]), Word(f.d, s))
  {
    hide HasMatch, IsPath, Words, Reported, All, Before, After, Less;
    WordsCut(f, s);
    var u := WordList(f)[i];
    assert u == Words(f, Before(f, s))[i];
    WordsHas(f, Before(f, s), u);
    var k :| 0 <= k < |Before(f, s)| && Before(f, s)[k] == u;
    InOrder(f);
    CutAt(f, s);
    assert All(f)[k] == u && All(f)[|Before(f, s)|] == s;
  }

  lemma LaterLess(f: Filter, s: Stack, i: nat)
    requires FilterOk(f) && IsPath(f, s) && |Words(f, Before(f, s))| <= i < |WordList(f)|
    ensures WordList(f)[i] == s || Less(Word(f.d, s), Word(f.d, WordList(f)[i]))
  {
    hide HasMatch, IsPath, Words, Reported, All, Before, After, Less;
    WordsCut(f, s);
    var u := WordList(f)[i];
    if u != s {
      assert u in Words(f, After(f, s));
      WordsHas(f, After(f, s), u);
      var k :| 0 <= k < |After(f, s)| && After(f, s)[k] == u;
      InOrder(f);
      CutAt(f, s);
      assert All(f)[|Before(f, s)| + 1 + k] == u && All(f)[|Before(f, s)|] == s;
    }
  }

  // ----- the index --------------------------------------------------------------------------

  /** The positions at which the first `depth` tiles change, as tryIndex finds them. */
  function Starts(ws: seq<seq<Tile>>, depth: nat): (r: seq<nat>)
    requires forall i :: 0 <= i < |ws| ==> depth <= |ws[i]|
    ensures forall k :: 0 <= k < |r| ==> r[k] < |ws|
    decreases |ws|
  {
    if ws == [] then []
    else
      var n := |ws| - 1;
      var r := Starts(ws[..n], depth);
      if r == [] || ws[r[|r| - 1]][..depth] != ws[n][..depth] then r + [n] else r
  }

  /** The end of block `k`. */
  function BlockEnd(r: seq<nat>, k: nat, n: nat): nat {
    if k + 1 < |r| then r[k + 1] else n
  }

  /** Positions that cut the list into blocks: strictly increasing from 0, one prefix to a block,
      and neighbouring blocks with different ones. */
  ghost predicate Cuts(r: seq<nat>, ws: seq<seq<Tile>>, depth: nat)
    requires forall i :: 0 <= i < |ws| ==> depth <= |ws[i]|
  {
    && (ws != [] ==> r != [] && r[0] == 0)
    && (forall k :: 0 <= k < |r| ==> r[k] < |ws|)
    && (forall k, l :: 0 <= k < l < |r| ==> r[k] < r[l])
    && (forall k, j :: 0 <= k < |r| && r[k] <= j < BlockEnd(r, k, |ws|) ==> ws[j][..depth] == ws[r[k]][..depth])
    && (forall k :: 0 < k < |r| ==> ws[r[k - 1]][..depth] != ws[r[k]][..depth])
  }

  lemma {:induction false} StartsCut(ws: seq<seq<Tile>>, depth: nat)
    requires forall i :: 0 <= i < |ws| ==> depth <= |ws[i]|
    ensures Cuts(Starts(ws, depth), ws, depth)
    decreases |ws|
  {
    hide Cuts, Starts;
    if ws == [] {
      NothingCut(ws, depth);
    } else {
      var before, w := ws[..|ws| - 1], ws[|ws| - 1];
      assert ws == before + [w];
      StartsCut(before, depth);
      StartsMore(before, w, depth);
      var q := Starts(before, depth);
      CutsNonEmpty(q, before, depth);
      if q == [] || before[q[|q| - 1]][..depth] != w[..depth] {
        CutsNew(q, before, w, depth);
      } else {
        CutsSame(q, before, w, depth);
      }
    }
  }

  lemma NothingCut(ws: seq<seq<Tile>>, depth: nat)
    requires ws == []
    ensures Cuts(Starts(ws, depth), ws, depth)
  {}

  lemma StartsMore(before: seq<seq<Tile>>, w: seq<Tile>, depth: nat)
    requires (forall i :: 0 <= i < |before| ==> depth <= |before[i]|) && depth <= |w|
    ensures var q := Starts(before, depth);
            Starts(before + [w], depth) ==
            if q == [] || before[q[|q| - 1]][..depth] != w[..depth] then q + [|before|] else q
  {
    assert (before + [w])[..|before|] == before;
  }

  lemma CutsNonEmpty(r: seq<nat>, ws: seq<seq<Tile>>, depth: nat)
    requires (forall i :: 0 <= i < |ws| ==> depth <= |ws[i]|) && Cuts(r, ws, depth)
    ensures (r == [] <==> ws == []) && (r != [] ==> r[|r| - 1] < |ws|)
  {
    if r != [] { assert r[0] < |ws|; }
  }

  lemma CutsNew(r: seq<nat>, ws: seq<seq<Tile>>, w: seq<Tile>, depth: nat)
    requires (forall i :: 0 <= i < |ws| ==> depth <= |ws[i]|) && Cuts(r, ws, depth) && depth <= |w|
    requires (r == [] <==> ws == []) && (r != [] ==> r[|r| - 1] < |ws| && ws[r[|r| - 1]][..depth] != w[..depth])
    ensures Cuts(r + [|ws|], ws + [w], depth)
  {
    var r', ws' := r + [|ws|], ws + [w];
    forall k, j | 0 <= k < |r'| && r'[k] <= j < BlockEnd(r', k, |ws'|)
      ensures ws'[j][..depth] == ws'[r'[k]][..depth]
    {
      if k < |r| {
        assert BlockEnd(r', k, |ws'|) == BlockEnd(r, k, |ws|);
        assert ws'[j] == ws[j] && ws'[r'[k]] == ws[r[k]];
      }
    }
  }

  lemma CutsSame(r: seq<nat>, ws: seq<seq<Tile>>, w: seq<Tile>, depth: nat)
    requires (forall i :: 0 <= i < |ws| ==> depth <= |ws[i]|) && Cuts(r, ws, depth) && depth <= |w|
    requires r != [] && r[|r| - 1] < |ws| && ws[r[|r| - 1]][..depth] == w[..depth]
    ensures Cuts(r, ws + [w], depth)
  {
    var ws' := ws + [w];
    forall k, j | 0 <= k < |r| && r[k] <= j < BlockEnd(r, k, |ws'|)
      ensures ws'[j][..depth] == ws'[r[k]][..depth]
    {
      assert j < |ws| ==> j < BlockEnd(r, k, |ws|);
    }
  }

  /** The prefix of each block. */
  function Prefixes(ws: seq<seq<Tile>>, depth: nat): (ps: seq<seq<Tile>>)
    requires forall i :: 0 <= i < |ws| ==> depth <= |ws[i]|
    ensures |ps| == |Starts(ws, depth)| && forall k :: 0 <= k < |ps| ==> ps[k] == ws[Starts(ws, depth)[k]][..depth]
  {
    var r := Starts(ws, depth);
    seq(|r|, k requires 0 <= k < |r| => ws[r[k]][..depth])
  }

  lemma PrefixesMore(before: seq<seq<Tile>>, w: seq<Tile>, depth: nat)
    requires (forall i :: 0 <= i < |before| ==> depth <= |before[i]|) && depth <= |w|
    ensures var ps := Prefixes(before, depth);
            var isNew := ps == [] || ps[|ps| - 1] != w[..depth];
            && Starts(before + [w], depth) == Starts(before, depth) + (if isNew then [|before|] else [])
            && Prefixes(before + [w], depth) == ps + (if isNew then [w[..depth]] else [])
  {
    hide Starts;
    StartsMore(before, w, depth);
  }

  /** More words, more blocks. */
  lemma {:induction false} StartsGrow(ws: seq<seq<Tile>>, depth: nat, m: nat)
    requires (forall i :: 0 <= i < |ws| ==> depth <= |ws[i]|) && m <= |ws|
    ensures Starts(ws[..m], depth) <= Starts(ws, depth)
    decreases |ws|
  {
    if m == |ws| {
      assert ws[..m] == ws;
    } else {
      StartsGrow(ws[..|ws| - 1], depth, m);
      assert ws[..|ws| - 1][..m] == ws[..m];
    }
  }

  /** `indices[k]` is the number of words before the first one that begins with prefix `k`. */
  lemma StartIsFirst(f: Filter, depth: nat, k: nat)
    requires FilterOk(f) && depth <= f.min && k < |Starts(WordTiles(f), depth)|
    ensures var i := Starts(WordTiles(f), depth)[k];
            var prefix := WordTiles(f)[i][..depth];
            i < |WordList(f)| && StartsWith(WordTiles(f)[i], prefix)
            && forall j :: 0 <= j < i ==> !StartsWith(WordTiles(f)[j], prefix)
  {
    hide WordList, Less;
    var ws := WordTiles(f);
    var r := Starts(ws, depth);
    StartsCut(ws, depth);
    var i := r[k];
    var prefix := ws[i][..depth];
    forall j | 0 <= j < i
      ensures !StartsWith(ws[j], prefix)
    {
      if StartsWith(ws[j], prefix) {
        NotEarlier(f, depth, k, j);
      }
    }
  }

  lemma NotEarlier(f: Filter, depth: nat, k: nat, j: nat)
    requires FilterOk(f) && depth <= f.min && k < |Starts(WordTiles(f), depth)| && j < Starts(WordTiles(f), depth)[k]
    requires StartsWith(WordTiles(f)[j], WordTiles(f)[Starts(WordTiles(f), depth)[k]][..depth])
    ensures false
  {
    hide WordList, Less;
    var ws := WordTiles(f);
    var r := Starts(ws, depth);
    StartsCut(ws, depth);
    var i := r[k];
    Interval(f, depth, j, i - 1, i);
    assert r[k - 1] <= i - 1 < BlockEnd(r, k - 1, |ws|);
  }

  /** Words between two with the same prefix have it too. */
  lemma Interval(f: Filter, depth: nat, a: nat, b: nat, c: nat)
    requires FilterOk(f) && depth <= f.min && a <= b <= c < |WordList(f)|
    requires WordTiles(f)[a][..depth] == WordTiles(f)[c][..depth]
    ensures WordTiles(f)[b][..depth] == WordTiles(f)[a][..depth]
  {
    hide WordList, Words, All, Less;
    InOrder(f);
    var ws := WordTiles(f);
    if a < b < c {
      var prefix := ws[a][..depth];
      assert Less(ws[a], ws[b]) && Less(ws[b], ws[c]);
      PrefixBelow(prefix, ws[a], ws[b]);
      BetweenPrefix(prefix, ws[b], ws[c]);
    }
  }

  lemma PrefixBelow(prefix: seq<Tile>, a: seq<Tile>, b: seq<Tile>)
    requires StartsWith(a, prefix) && Less(a, b)
    ensures b == prefix || Less(prefix, b)
  {
    var n: nat :| LessAt(a, b, n);
    if n < |prefix| {
      assert a[..|prefix|][..n] == a[..n] && prefix[n] == a[n];
      assert LessAt(prefix, b, n);
    } else {
      assert b[..|prefix|] == a[..n][..|prefix|] == b[..n][..|prefix|] == prefix;
      if b != prefix {
        assert LessAt(prefix, b, |prefix|);
      }
    }
  }

  function WordTiles(f: Filter): (ws: seq<seq<Tile>>)
    requires FilterOk(f)
    ensures |ws| == |WordList(f)| && forall i :: 0 <= i < |ws| ==> ws[i] == Word(f.d, WordList(f)[i]) && f.min <= |ws[i]|
  {
    LongEnough(f);
    seq(|WordList(f)|, i requires 0 <= i < |WordList(f)| => Word(f.d, WordList(f)[i]))
  }

  lemma LongEnough(f: Filter)
    requires FilterOk(f)
    ensures forall i :: 0 <= i < |WordList(f)| ==> f.min <= |WordList(f)[i]|
  {
    hide WordList, Reported;
    forall i | 0 <= i < |WordList(f)|
      ensures f.min <= |WordList(f)[i]|
    {
      ListedPath(f, WordList(f)[i]);
    }
  }
}
