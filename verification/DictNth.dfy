/** Going to word `n` (dictiter.c): the prefix index, and di_getNthWord's choice of a way there. */
module DictNth {
  import opened Wrappers
  import opened Dawg
  import opened PatFilter
  import opened PatExact
  import opened DictPaths
  import opened DictWords
  import opened DictIndex
  import opened DictIters

  /** Where entry `k` of the prefixes starts. */
  function Slot(depth: nat, k: nat): nat { depth * k }

  /** The caller's data for di_makeIndex: `prefixes` holds `depth` tiles for each entry. */
  class IndexData {
    const prefixes: array<Tile>
    const indices: array<nat>
    var count: nat

    constructor (prefixes: array<Tile>, indices: array<nat>, count: nat)
      ensures this.prefixes == prefixes && this.indices == indices && this.count == count
    {
      this.prefixes, this.indices, this.count := prefixes, indices, count;
    }

    /** Entry `k` has this prefix. */
    ghost predicate HasPrefix(k: nat, depth: nat, prefix: seq<Tile>)
      reads this, prefixes
    {
      Slot(depth, k) + depth <= prefixes.Length && prefixes[Slot(depth, k)..Slot(depth, k) + depth] == prefix
    }

    ghost predicate HasPrefixes(ps: seq<seq<Tile>>, depth: nat)
      reads this, prefixes
    {
      count == |ps| && forall k :: 0 <= k < count ==> HasPrefix(k, depth, ps[k])
    }

    /** The entries are those of the words `ws`. */
    ghost predicate Indexes(ws: seq<seq<Tile>>, depth: nat)
      requires forall i :: 0 <= i < |ws| ==> depth <= |ws[i]|
      reads this, prefixes, indices
    {
      count <= indices.Length && indices[..count] == Starts(ws, depth) && HasPrefixes(Prefixes(ws, depth), depth)
    }

    /** Room for `capacity` entries. */
    ghost predicate Room(capacity: nat, depth: nat)
      reads this
    {
      prefixes != indices && capacity <= indices.Length && Slot(depth, capacity) <= prefixes.Length
    }
  }

  lemma SlotBefore(depth: nat, k: nat, n: nat)
    requires k < n
    ensures Slot(depth, k) + depth <= Slot(depth, n)
  {
    var rest: nat := n - k - 1;
    assert depth * n == depth * k + depth + depth * rest;
  }

  // ----- a word with a prefix ---------------------------------------------------------------

  lemma {:induction false} PrefixPath(f: Filter, s: Stack, n: nat)
    requires FilterOk(f) && s != [] && IsPath(f, s) && 0 < n <= |s|
    ensures IsPath(f, s[..n])
    decreases |s|
  {
    if n == |s| {
      assert s[..n] == s;
    } else {
      PathParts(f, s);
      PrefixPath(f, s[..|s| - 1], n);
      assert s[..|s| - 1][..n] == s[..n];
    }
  }

  /** Following the tiles of a path leads along it. */
  lemma NextOnPath(f: Filter, w: Stack, n: nat)
    requires FilterOk(f) && w != [] && IsPath(f, w) && n < |w|
    ensures (n > 0 ==> w[n - 1].edge < |f.d.edges|) && Start(f, w[..n]).Some? && Start(f, w[..n]).value < |f.d.edges|
    ensures w[n].edge < |f.d.edges|
    ensures EdgeWithTile(f.d, Start(f, w[..n]).value, TileOf(f.d, w[n].edge)) == Some(w[n].edge)
    ensures HasMatch(f, w[..n], w[n].edge) == Some(w[n].sets) && IsPath(f, w[..n + 1])
  {
    hide HasMatch, IsPath, InRun;
    PrefixPath(f, w, n + 1);
    PathParts(f, w[..n + 1]);
    assert w[..n + 1][..n] == w[..n] && w[..n + 1][n] == w[n];
    RunBounds(f.d, Start(f, w[..n]).value, w[n].edge);
    EdgeWithTileExact(f.d, Start(f, w[..n]).value, TileOf(f.d, w[n].edge), w[n].edge);
  }

  /** The edge that carries the tile is pushed. */
  method PushTile(iter: DictIter, from: nat, tile: Tile, ghost e: Entry) returns (edge: Option<nat>)
    requires iter.Valid() && iter.nEdges < iter.f.max && from < |iter.f.d.edges| && e.edge < |iter.f.d.edges|
    requires EdgeWithTile(iter.f.d, from, tile) == Some(e.edge) && HasMatch(iter.f, iter.Entries(), e.edge) == Some(e.sets)
    requires IsPath(iter.f, iter.Entries() + [e])
    modifies iter.stack, iter`nEdges
    ensures iter.Valid() && iter.Entries() == old(iter.Entries()) + [e] && edge == Follow(iter.f.d, e.edge)
  {
    hide HasMatch, IsPath, EdgeWithTile;
    var k := FindEdgeWithTile(iter.f.d, from, tile);
    var sets := iter.PatHasMatch(k.value);
    iter.PushEdge(Entry(k.value, sets.value));
    edge := Follow(iter.f.d, k.value);
  }

  /** findStartsWithTiles, for tiles that begin the word of some path `w`. */
  method FindStartsWithTiles(iter: DictIter, tiles: seq<Tile>, ghost w: Stack) returns (found: bool)
    requires iter.Valid() && w != [] && IsPath(iter.f, w) && StartsWith(Word(iter.f.d, w), tiles)
    modifies iter.stack, iter`nEdges
    ensures iter.Valid() && found && iter.Entries() == w[..|tiles|]
  {
    hide HasMatch, IsPath, StartsWith, InRun, WellFormed, EdgeWithTile, Word;
    TilesOf(iter.f.d, w, tiles);
    PathParts(iter.f, w);
    NextOnPath(iter.f, w, 0);
    var edge := iter.f.d.topEdge;
    iter.nEdges := 0;
    assert w[..0] == [];
    var n := 0;
    while n < |tiles|
      invariant n <= |tiles| && iter.Valid() && iter.Entries() == w[..n]
      invariant (n > 0 ==> w[n - 1].edge < |iter.f.d.edges|) && edge == Start(iter.f, w[..n])
      decreases |tiles| - n
    {
      NextOnPath(iter.f, w, n);
      assert w[..n] + [w[n]] == w[..n + 1];
      edge := PushTile(iter, edge.value, tiles[n], w[n]);
      n := n + 1;
    }
    found := true;
  }

  lemma TilesOf(d: Dict, w: Stack, tiles: seq<Tile>)
    requires StartsWith(Word(d, w), tiles)
    ensures |tiles| <= |w| && forall i :: 0 <= i < |tiles| ==> tiles[i] == TileOf(d, w[i].edge)
  {
    forall i | 0 <= i < |tiles|
      ensures tiles[i] == TileOf(d, w[i].edge)
    {
      assert Word(d, w)[..|tiles|][i] == Word(d, w)[i];
    }
  }

  /** startsWith. */
  method StackStartsWith(iter: DictIter, tiles: seq<Tile>) returns (success: bool)
    requires iter.Valid()
    ensures success == StartsWith(Word(iter.f.d, iter.Entries()), tiles)
  {
    hide IsPath;
    ghost var w := Word(iter.f.d, iter.Entries());
    success := |tiles| <= iter.nEdges;
    var n: nat := |tiles|;
    while success && n > 0
      invariant n <= |tiles| && (success ==> |tiles| <= iter.nEdges)
      invariant success ==> |tiles| <= |w| && forall i :: n <= i < |tiles| ==> tiles[i] == w[i]
      invariant !success ==> !StartsWith(w, tiles)
    {
      n := n - 1;
      success := tiles[n] == TileOf(iter.f.d, iter.stack[n].edge);
      assert !success && |tiles| <= |w| ==> w[..|tiles|][n] != tiles[n];
    }
  }

  /** findWordStartsWith: to word `i`, if that is the first one that begins with `tiles`. */
  method FindWordStartsWith(iter: DictIter, tiles: seq<Tile>, ghost i: nat) returns (found: bool)
    requires iter.Valid() && 0 < |tiles| <= iter.f.min && i < |WordList(iter.f)|
    requires StartsWith(Word(iter.f.d, WordList(iter.f)[i]), tiles)
    requires i == 0 || !StartsWith(Word(iter.f.d, WordList(iter.f)[i - 1]), tiles)
    modifies iter.stack, iter`nEdges
    ensures iter.Valid() && found && iter.At(i)
  {
    hide HasMatch, IsPath, StartsWith, WordList, Words, Before, After, MatchFinished;
    ghost var w := WordList(iter.f)[i];
    AtPosition(iter.f, i);
    found := FindStartsWithTiles(iter, tiles, w);
    ghost var s := iter.Entries();
    PrefixStack(iter.f.d, w, tiles);
    FirstFrom(iter.f, s, i);
    WordsCut(iter.f, s);
    var accepting := iter.AcceptIter();
    found := accepting && iter.f.min <= iter.nEdges && iter.nEdges <= iter.f.max;
    if !found {
      found := iter.NextWord();
      assert found && iter.Entries() == w;
      var starts := StackStartsWith(iter, tiles);
      found := found && starts;
    }
  }

  lemma PrefixStack(d: Dict, w: Stack, tiles: seq<Tile>)
    requires StartsWith(Word(d, w), tiles)
    ensures |tiles| <= |w| && Word(d, w[..|tiles|]) == tiles
  {
    TilesOf(d, w, tiles);
  }

  // ----- making the index -------------------------------------------------------------------

  /** tryIndex, called on word `m`: a new prefix gets the next entry.  `seen` stops counting once
      the entries have run out. */
  method TryIndex(iter: DictIter, data: IndexData, depth: nat, capacity: nat, seen: nat, ghost m: nat) returns (seen': nat)
    requires iter.Valid() && 0 < depth <= iter.f.min && iter.At(m)
    requires data.Room(capacity, depth) && data.count <= capacity && data.Indexes(WordTiles(iter.f)[..m], depth)
    requires |Starts(WordTiles(iter.f), depth)| <= capacity && (data.count < capacity ==> seen == m)
    modifies data`count, data.prefixes, data.indices
    ensures data.count <= capacity && data.Indexes(WordTiles(iter.f)[..m + 1], depth)
    ensures data.count < capacity ==> seen' == m + 1
  {
    hide WordList, IsPath, FilterOk, Slot, Starts, Prefixes, Word, IndexData.Indexes, IndexData.HasPrefix;
    ghost var ws := WordTiles(iter.f);
    ghost var w := ws[m][..depth];
    ghost var ps, starts := Prefixes(ws[..m], depth), Starts(ws[..m], depth);
    assert ws[..m + 1] == ws[..m] + [ws[m]];
    PrefixesMore(ws[..m], ws[m], depth);
    StartsGrow(ws, depth, m + 1);
    seen' := seen;
    IndexParts(data, ws[..m], depth);
    if data.count < capacity {
      var isNew := KeepPrefix(iter, data, depth, capacity, ps);
      if isNew {
        AddEntry(data, depth, seen, ps, w);
      }
      seen' := seen + 1;
    }
    IndexMade(data, ws[..m + 1], depth);
  }

  lemma IndexParts(data: IndexData, ws: seq<seq<Tile>>, depth: nat)
    requires (forall i :: 0 <= i < |ws| ==> depth <= |ws[i]|) && data.Indexes(ws, depth)
    ensures data.count <= data.indices.Length && data.indices[..data.count] == Starts(ws, depth)
    ensures data.HasPrefixes(Prefixes(ws, depth), depth)
  {}

  lemma IndexMade(data: IndexData, ws: seq<seq<Tile>>, depth: nat)
    requires forall i :: 0 <= i < |ws| ==> depth <= |ws[i]|
    requires data.count <= data.indices.Length && data.indices[..data.count] == Starts(ws, depth)
    requires data.HasPrefixes(Prefixes(ws, depth), depth)
    ensures data.Indexes(ws, depth)
  {}

  method AddEntry(data: IndexData, depth: nat, seen: nat, ghost ps: seq<seq<Tile>>, ghost w: seq<Tile>)
    requires data.count < data.indices.Length && data.prefixes != data.indices
    requires data.HasPrefixes(ps, depth) && data.HasPrefix(data.count, depth, w)
    modifies data`count, data.indices
    ensures data.count == old(data.count) + 1 && data.HasPrefixes(ps + [w], depth)
    ensures data.indices[..data.count] == old(data.indices[..data.count]) + [seen]
  {
    hide Slot;
    data.indices[data.count] := seen;
    data.count := data.count + 1;
    forall k | 0 <= k < data.count
      ensures data.HasPrefix(k, depth, (ps + [w])[k])
    {
      if k < |ps| { assert old(data.HasPrefix(k, depth, ps[k])); }
    }
  }

  /** The prefix is written behind those there are. */
  method AppendPrefix(iter: DictIter, data: IndexData, depth: nat, capacity: nat, ghost ps: seq<seq<Tile>>)
    requires iter.Valid() && 0 < depth <= iter.nEdges
    requires data.Room(capacity, depth) && data.count < capacity && data.HasPrefixes(ps, depth)
    modifies data.prefixes
    ensures data.HasPrefixes(ps, depth) && data.HasPrefix(data.count, depth, Word(iter.f.d, iter.Entries())[..depth])
  {
    hide IsPath, FilterOk, Slot, Word;
    SlotBefore(depth, data.count, capacity);
    WritePrefix(iter, data, depth, Slot(depth, data.count));
    forall k | 0 <= k < data.count
      ensures data.HasPrefix(k, depth, ps[k])
    {
      SlotBefore(depth, k, data.count);
      assert old(data.HasPrefix(k, depth, ps[k]));
      assert data.prefixes[Slot(depth, k)..Slot(depth, k) + depth] == old(data.prefixes[Slot(depth, k)..Slot(depth, k) + depth]);
    }
  }

  /** The first `depth` tiles go into the next free entry; are they new? */
  method KeepPrefix(iter: DictIter, data: IndexData, depth: nat, capacity: nat, ghost ps: seq<seq<Tile>>) returns (isNew: bool)
    requires iter.Valid() && 0 < depth <= iter.nEdges
    requires data.Room(capacity, depth) && data.count < capacity && data.HasPrefixes(ps, depth)
    modifies data.prefixes
    ensures data.HasPrefixes(ps, depth) && data.HasPrefix(data.count, depth, Word(iter.f.d, iter.Entries())[..depth])
    ensures isNew == (ps == [] || ps[|ps| - 1] != Word(iter.f.d, iter.Entries())[..depth])
  {
    hide IsPath, FilterOk, Slot, Word;
    AppendPrefix(iter, data, depth, capacity, ps);
    var nextPrefix := Slot(depth, data.count);
    isNew := true;
    if data.count > 0 {
      var k := data.count - 1;
      SlotBefore(depth, k, data.count);
      assert data.HasPrefix(k, depth, ps[k]);
      isNew := data.prefixes[Slot(depth, k)..Slot(depth, k) + depth] != data.prefixes[nextPrefix..nextPrefix + depth];
    }
  }

  method WritePrefix(iter: DictIter, data: IndexData, depth: nat, nextPrefix: nat)
    requires iter.Valid() && depth <= iter.nEdges && nextPrefix + depth <= data.prefixes.Length
    modifies data.prefixes
    ensures data.prefixes[nextPrefix..nextPrefix + depth] == Word(iter.f.d, iter.Entries())[..depth]
    ensures forall j :: 0 <= j < nextPrefix ==> data.prefixes[j] == old(data.prefixes[j])
  {
    hide IsPath, FilterOk;
    ghost var w := Word(iter.f.d, iter.Entries());
    var ii := 0;
    while ii < depth
      invariant ii <= depth
      invariant forall j :: 0 <= j < nextPrefix ==> data.prefixes[j] == old(data.prefixes[j])
      invariant forall j :: 0 <= j < ii ==> data.prefixes[nextPrefix + j] == w[j]
    {
      data.prefixes[nextPrefix + ii] := TileOf(iter.f.d, iter.stack[ii].edge);
      ii := ii + 1;
    }
  }

  lemma NothingIndexed(data: IndexData, ws: seq<seq<Tile>>, depth: nat)
    requires ws == [] && data.count == 0
    ensures data.Indexes(ws, depth)
  {}

  /** di_makeIndex: `data.count` entries are there to be filled. */
  method MakeIndex(iter: DictIter, depth: nat, data: IndexData)
    requires iter.Valid() && NoOneTileWords(iter.f.d) && 0 < depth <= iter.f.min
    requires data.Room(data.count, depth) && |Starts(WordTiles(iter.f), depth)| <= data.count
    modifies data`count, data.prefixes, data.indices
    ensures data.count <= old(data.count) && data.Indexes(WordTiles(iter.f), depth)
  {
    hide WordList, IsPath, Words, After, Before, Slot, Starts, Prefixes, WellFormed, IndexData.Indexes, NoOneTileWords, HasMatch, Word;
    var capacity := data.count;
    data.count := 0;
    var tmp := new DictIter.Uncounted(iter.f);
    ghost var ws := WordTiles(iter.f);
    var seen, ok := 0, false;
    ghost var m := 0;
    EmptyIsFresh(tmp);
    ok := tmp.FirstWord();
    NothingIndexed(data, ws[..0], depth);
    while ok
      invariant tmp.Valid() && tmp.f == iter.f && fresh(tmp) && fresh(tmp.stack)
      invariant data.Room(capacity, depth) && data.count <= capacity && m <= |ws| && data.Indexes(ws[..m], depth)
      invariant data.count < capacity ==> seen == m
      invariant if ok then tmp.At(m) else m == |ws|
      decreases ok, |ws| - m
    {
      seen := TryIndex(tmp, data, depth, capacity, seen, m);
      AtPosition(tmp.f, m);
      m := m + 1;
      ok := tmp.NextWord();
    }
    assert ws[..m] == ws;
  }

  // ----- to word `n` ------------------------------------------------------------------------

  function Dist(a: int, b: int): (d: nat)
    ensures d == a - b || d == b - a
  {
    if a < b then b - a else a - b
  }

  /** The search in placeWordClose.  It looks one past the last entry, so that there must be a
      slot to read, but what is in it does not matter. */
  method ClosestEntry(indices: array<nat>, count: nat, position: nat) returns (index: int)
    requires 0 < count < indices.Length && indices[0] <= position
    requires forall k, l :: 0 <= k < l < count ==> indices[k] < indices[l]
    ensures 0 <= index < count
    ensures forall k :: 0 <= k < count ==> Dist(position, indices[index]) <= Dist(position, indices[k])
  {
    index := -1;
    var low, high := 0, count - 1;
    while low <= high
      invariant 0 <= low <= count && -1 <= high < count && index < count
      invariant forall k :: 0 <= k <= low && k < count ==> indices[k] <= position
      invariant forall k :: high < k < count ==> position < indices[k]
      invariant low > high ==> index == count - 1 && low == count
      decreases high - low
    {
      index := low + (high - low) / 2;
      if position < indices[index] {
        high := index - 1;
      } else if indices[index + 1] <= position {
        low := index + 1;
      } else {
        break;
      }
    }
    assert indices[index] <= position && (index + 1 < count ==> position < indices[index + 1]);
    if index + 1 < count && indices[index + 1] - position < position - indices[index] {
      index := index + 1;
    }
  }

  lemma EntryPrefix(f: Filter, depth: nat, k: nat)
    requires FilterOk(f) && 0 < depth <= f.min && k < |Starts(WordTiles(f), depth)|
    ensures var i := Starts(WordTiles(f), depth)[k];
            var prefix := Prefixes(WordTiles(f), depth)[k];
            && i < |WordList(f)| && |prefix| == depth && StartsWith(Word(f.d, WordList(f)[i]), prefix)
            && (i == 0 || !StartsWith(Word(f.d, WordList(f)[i - 1]), prefix))
  {
    hide WordList, Starts;
    StartIsFirst(f, depth, k);
  }

  lemma IndexSorted(f: Filter, depth: nat)
    requires FilterOk(f) && depth <= f.min && WordList(f) != []
    ensures var r := Starts(WordTiles(f), depth);
            r != [] && r[0] == 0 && forall k, l :: 0 <= k < l < |r| ==> r[k] < r[l]
  {
    hide WordList, Starts;
    StartsCut(WordTiles(f), depth);
  }

  /** placeWordClose: to the first word of the prefix that begins nearest to `position`. */
  method PlaceWordClose(iter: DictIter, position: nat, depth: nat, data: IndexData) returns (wordIndex: nat)
    requires iter.Valid() && 0 < depth <= iter.f.min && position < |WordList(iter.f)|
    requires data.Indexes(WordTiles(iter.f), depth) && data.count < data.indices.Length
    modifies iter.stack, iter`nEdges
    ensures iter.Valid() && iter.At(wordIndex)
    ensures forall k :: 0 <= k < data.count ==> Dist(position, wordIndex) <= Dist(position, data.indices[k])
  {
    hide WordList, IsPath, Starts, Prefixes, Slot, StartsWith;
    ghost var starts := Starts(WordTiles(iter.f), depth);
    IndexSorted(iter.f, depth);
    assert forall k :: 0 <= k < data.count ==> data.indices[k] == data.indices[..data.count][k];
    var index := ClosestEntry(data.indices, data.count, position);
    wordIndex := data.indices[index];
    EntryPrefix(iter.f, depth, index);
    assert data.HasPrefix(index, depth, Prefixes(WordTiles(iter.f), depth)[index]);
    var found := FindWordStartsWith(iter, data.prefixes[Slot(depth, index)..Slot(depth, index) + depth], wordIndex);
    assert found;
  }

  lemma HasFirst(f: Filter)
    requires FilterOk(f) && WordList(f) != []
    ensures f.d.topEdge.Some? && f.d.topEdge.value < |f.d.edges| && NextPeer(f, [], f.d.topEdge.value).Some?
  {
    hide IsPath, WordList, NextPeer, Ahead;
    FirstPath(f);
  }

  /** The steps from word `from` to word `position`. */
  method WalkTo(iter: DictIter, from: nat, position: nat)
    requires iter.Valid() && RunStarts(iter.f.d) && iter.At(from) && position < |WordList(iter.f)|
    modifies iter.stack, iter`nEdges
    ensures iter.Valid() && iter.At(position)
  {
    hide IsPath, WordList, Words, After, Before, RunStarts;
    ghost var i: nat := from;
    var repeats := if from < position then position - from else from - position;
    while repeats > 0
      invariant iter.Valid() && iter.At(i) && repeats == Dist(i, position)
      invariant from < position ==> i <= position
      invariant from >= position ==> i >= position
    {
      AtPosition(iter.f, i);
      if from < position {
        var moved := iter.NextWord();
        assert moved;
        i := i + 1;
      } else {
        var moved := iter.PrevWord();
        assert moved;
        i := i - 1;
      }
      repeats := repeats - 1;
    }
  }

  lemma EmptyIsFresh(iter: DictIter)
    requires iter.Valid() && iter.nEdges == 0
    ensures iter.TopPeer() == FreshPeer(iter.f)
    ensures iter.TopPeer().Some? ==> HasMatch(iter.f, [], iter.TopPeer().value.edge) == Some(iter.TopPeer().value.sets)
  {
    hide HasMatch, NextPeer, IsPath;
    assert iter.Entries() == [];
    if FreshPeer(iter.f).Some? { FreshFits(iter.f); }
  }

  /** Without patterns, too, it does not matter where the iterator stands. */
  lemma NoPatternsFresh(iter: DictIter)
    requires iter.Valid() && iter.f.pats == []
    ensures iter.TopPeer() == FreshPeer(iter.f)
  {
    hide HasMatch, NextPeer, IsPath;
    if iter.f.d.topEdge.Some? && iter.f.d.topEdge.value < |iter.f.d.edges| {
      SamePeer(iter.f, iter.Entries(), iter.f.d.topEdge.value);
    }
  }

  /** Starting over goes to the first word, or nowhere. */
  ghost predicate CanRestart(iter: DictIter)
    requires iter.Valid()
    reads iter, iter.stack
  {
    iter.TopPeer() == FreshPeer(iter.f) || iter.TopPeer().None?
  }

  /** di_getNthWord goes back to the first word without an index. */
  predicate GoesToFirst(iter: DictIter, position: nat, wordCount: nat)
    reads iter
  {
    position < wordCount / 2 && (iter.nEdges == 0 || Dist(position, iter.position) > wordCount / 2)
  }

  /** Where di_getNthWord starts walking when there is no index: where it is, or the nearer end. */
  method NearerEnd(iter: DictIter, position: nat, validWord: bool, wordCount: nat) returns (wordIndex: nat)
    requires iter.Valid() && RunStarts(iter.f.d) && NoOneTileWords(iter.f.d) && iter.nWords == |WordList(iter.f)|
    requires validWord == (iter.nEdges > 0) && (validWord ==> iter.At(iter.position))
    requires GoesToFirst(iter, position, wordCount) ==> CanRestart(iter)
    requires position < |WordList(iter.f)|
    modifies iter.stack, iter`nEdges, iter`position
    ensures iter.Valid() && iter.At(wordIndex)
    ensures wordCount == iter.nWords && old(GoesToFirst(iter, position, wordCount) ==> iter.TopPeer() == FreshPeer(iter.f)) ==>
              position - wordCount / 2 <= wordIndex <= position + wordCount / 2
  {
    hide IsPath, WordList, RunStarts, NextPeer, HasMatch;
    HasFirst(iter.f);
    var half := wordCount / 2;
    if !validWord || Dist(position, iter.position) > half {
      if position >= half {
        var _ := iter.DiLastWord();
      } else {
        FreshFits(iter.f);
        if iter.nEdges == 0 { EmptyIsFresh(iter); }
        var _ := iter.DiFirstWord();
      }
    }
    wordIndex := iter.position;
  }

  /** di_getNthWord lands on word `position` whichever way it takes there.  `dictWords` is the
      dictionary's own count, used while the iterator stands on no word.  Without an index it may
      start over from a word it stands on, which must lead to the first word, or nowhere. */
  method GetNthWord(iter: DictIter, position: nat, depth: nat, data: IndexData?, dictWords: nat) returns (success: bool)
    requires iter.Valid() && RunStarts(iter.f.d) && NoOneTileWords(iter.f.d) && iter.nWords == |WordList(iter.f)|
    requires iter.nEdges > 0 ==> iter.At(iter.position)
    requires position < (if iter.nEdges > 0 then iter.nWords else dictWords) ==> position < |WordList(iter.f)|
    requires data != null ==> 0 < depth <= iter.f.min && data.Indexes(WordTiles(iter.f), depth) && data.count < data.indices.Length
    requires data == null && iter.nEdges > 0 && GoesToFirst(iter, position, iter.nWords) ==> CanRestart(iter)
    modifies iter.stack, iter`nEdges, iter`position
    ensures iter.Valid() && success == (position < (if old(iter.nEdges) > 0 then iter.nWords else dictWords))
    ensures success ==> iter.position == position && iter.At(position)
    ensures !success ==> iter.position == old(iter.position) && iter.Entries() == old(iter.Entries())
  {
    hide IsPath, WordList, RunStarts, CanRestart;
    var validWord := 0 < iter.nEdges;
    var wordCount := if validWord then iter.nWords else dictWords;
    success := position < wordCount;
    if success {
      success := false;
      if validWord {
        if iter.position == position {
          success := true;
        } else if iter.position == position - 1 {
          success := iter.DiNextWord();
        } else if iter.position == position + 1 {
          success := iter.DiPrevWord();
        }
      }
      if !success {
        var wordIndex;
        if data != null {
          wordIndex := PlaceWordClose(iter, position, depth, data);
        } else {
          if iter.nEdges == 0 { RestartsFromNothing(iter); }
          wordIndex := NearerEnd(iter, position, validWord, wordCount);
        }
        WalkTo(iter, wordIndex, position);
        iter.position := position;
        success := true;
      }
    }
  }

  lemma RestartsFromNothing(iter: DictIter)
    requires iter.Valid() && iter.nEdges == 0
    ensures CanRestart(iter)
  {
    EmptyIsFresh(iter);
  }

  // ----- why starting over needs an empty stack ---------------------------------------------

  /** firstWord looks for the first top edge before it empties the stack.  Standing on the word
      "ab" of the pattern `ab`, it finds that the edge for `a` cannot follow, though it can start. */
  lemma StaleStackHides(a: Tile, b: Tile, blank: Tile)
    requires a != b && a != blank && b != blank
    ensures var pat := [PatElem(1, 1, multiset{a}, false), PatElem(1, 1, multiset{b}, false)];
            && Next(pat, blank, [], [], a) == {0} && Next(pat, blank, [{0}], [a], b) == {1}
            && Next(pat, blank, [{0}, {1}], [a, b], a) == {}
  {
    var pat := [PatElem(1, 1, multiset{a}, false), PatElem(1, 1, multiset{b}, false)];
    var h1: seq<ElemSet>, h2: seq<ElemSet> := [{0}], [{0}, {1}];
    assert h2[..1] == h1 && h1[..0] == [];
    assert Streak(h1, 0) == 1 && Streak(h1, 1) == 0 && Streak(h2, 0) == 0 && Streak(h2, 1) == 1;
    assert Live(pat, [], 0) && !Live(pat, [], 1) && Live(pat, h1, 0) && Live(pat, h1, 1);
    assert !Live(pat, h2, 0);
  }

  /** The dictionary of the one word "ab", tiles 0 and 1, with the blank as tile 2. */
  function OneWordDict(): Dict {
    Dict([Edge(0, false, true, 1), Edge(1, true, true, 0)], Some(0), 3, 2)
  }

  function ExactPat(): Pat {
    [PatElem(1, 1, multiset{0}, false), PatElem(1, 1, multiset{1}, false)]
  }

  lemma OneWordOk()
    ensures WellFormed(OneWordDict()) && NoOneTileWords(OneWordDict())
    ensures Accepts(OneWordDict(), Some(0), [0, 1])
  {
    var d := OneWordDict();
    assert WellFormed(d);
    assert [0, 1][1..] == [1];
    assert EdgeWithTile(d, 0, 0) == Some(0) && EdgeWithTile(d, 1, 1) == Some(1);
    assert Accepts(d, Some(1), [1]);
  }

  lemma OnlyWord(w: seq<Tile>)
    requires WellFormed(OneWordDict()) && Accepts(OneWordDict(), Some(0), w) && |w| >= 2
    ensures w == [0, 1]
  {
    var d := OneWordDict();
    assert EdgeWithTile(d, 0, w[0]) == Some(0) && w[0] == 0;
    assert Accepts(d, Some(1), w[1..]);
    assert EdgeWithTile(d, 1, w[1..][0]) == Some(1) && w[1] == 1;
    assert Follow(d, 1) == None && !Accepts(d, None, w[1..][1..]);
    assert |w[1..]| == 1;
  }

  lemma ExactRun()
    ensures Run(ExactPat(), 2, [0, 1]) == [{0}, {1}]
    ensures Next(ExactPat(), 2, [{0}, {1}], [0, 1], 0) == {}
    ensures Passes(ExactPat(), 2, [0, 1])
  {
    var pat, ts: seq<Tile> := ExactPat(), [0, 1];
    StaleStackHides(0, 1, 2);
    hide Next;
    assert ts[..1] == [0] && ts[..1][..0] == [];
    assert Run(pat, 2, ts[..1]) == [{0}];
    var h: seq<ElemSet> := [{0}, {1}];
    assert Run(pat, 2, ts) == h && h[..1] == [{0}] && h[..1][..0] == [];
    assert Next(pat, 2, h[..1][..0], ts[..1][..0], ts[..1][0]) == {0};
    assert Traced(pat, 2, h[..1], ts[..1]);
    assert Traced(pat, 2, h, ts);
    assert Streak(h, 1) == 1 by { assert Streak(h[..1], 1) == 0; }
    assert LastIn(pat, h[1], 2) == Some(1);
  }

  /** Starting over from the word "ab" with the pattern `ab`: firstWord finds it once, and asked
      again, from where it stands, finds no word, and stays. */
  method StartingOverFails() returns (first: bool, again: bool)
    ensures first && !again
  {
    hide IsPath, WordList, HasMatch, NextPeer, Traced, Run, Accepts, WellFormed, NoOneTileWords, OneWordDict, ExactPat;
    OneWordOk();
    ExactRun();
    var iter := new DictIter(OneWordDict(), None, [ExactPat()]);
    OneWordListed(iter.f);
    EmptyIsFresh(iter);
    first := iter.DiFirstWord();
    StandsOnIt(iter.f, iter.Entries());
    again := iter.DiFirstWord();
  }

  lemma OneWordListed(f: Filter)
    requires WellFormed(OneWordDict()) && f == Filter(OneWordDict(), 2, MAX_COLS_DICT, [ExactPat()])
    requires Accepts(OneWordDict(), Some(0), [0, 1]) && Passes(ExactPat(), 2, [0, 1])
    ensures WordList(f) != []
  {
    hide WordList, Accepts, WellFormed, Passes;
    ListsPassing(f, [0, 1]);
  }

  lemma StandsOnIt(f: Filter, s: Stack)
    requires WellFormed(OneWordDict()) && f == Filter(OneWordDict(), 2, MAX_COLS_DICT, [ExactPat()]) && s in WordList(f)
    ensures f.d.topEdge == Some(0) && |f.d.edges| == 2 && NextPeer(f, s, 0) == None
  {
    hide WordList, Accepts, WellFormed, Run, IsPath, Next, ExactPat;
    ExactRun();
    ListedPath(f, s);
    OnlyWord(Word(f.d, s));
    HistIsRun(f, s, 0);
    assert NextSets(f, s, 0)[0] == {};
  }
}
