/** Text for tiles and tiles for text (dictnry.c): a tile may have several faces of any length, so
    that a string may be spelled in several ways. */
module TileText {
  import opened Wrappers
  import opened Dawg

  /** The faces of each tile, in the order they are tried; the first is the one shown. */
  type Faces = seq<seq<string>>

  /** No face is empty, and none begins with another of the same tile. */
  ghost predicate FacesOk(fs: Faces) {
    forall t, i :: 0 <= t < |fs| && 0 <= i < |fs[t]| ==>
      fs[t][i] != "" && forall j :: 0 <= j < |fs[t]| && j != i ==> !(fs[t][i] <= fs[t][j])
  }

  /** The tiles `w`, each by one of its faces, spell `s`. */
  ghost predicate Spells(fs: Faces, w: seq<Tile>, s: string) {
    if w == [] then s == ""
    else w[0] < |fs| && exists i :: 0 <= i < |fs[w[0]]| && fs[w[0]][i] <= s && Spells(fs, w[1..], s[|fs[w[0]][i]|..])
  }

  // ----- from text to tiles -----------------------------------------------------------------

  /** The first face from the i-th on that `s` begins with. */
  function FaceAt(faces: seq<string>, s: string, i: nat): (r: Option<nat>)
    requires i <= |faces|
    ensures r.Some? ==> i <= r.value < |faces| && faces[r.value] <= s
    ensures forall j :: i <= j < (if r.Some? then r.value else |faces|) ==> !(faces[j] <= s)
    decreases |faces| - i
  {
    if i == |faces| then None else if faces[i] <= s then Some(i) else FaceAt(faces, s, i + 1)
  }

  /** What tilesForStringImpl reports, if it is never told to stop. */
  function Found(fs: Faces, s: string, room: nat, done: seq<Tile>): seq<seq<Tile>>
    requires |done| <= room
    decreases room - |done|, |fs| + 1
  {
    if |done| == room || s == "" then [done] else FoundFrom(fs, s, room, done, 0)
  }

  function FoundFrom(fs: Faces, s: string, room: nat, done: seq<Tile>, t: nat): seq<seq<Tile>>
    requires |done| < room && t <= |fs|
    decreases room - |done|, |fs| - t
  {
    if t == |fs| then [] else FoundWith(fs, s, room, done, t) + FoundFrom(fs, s, room, done, t + 1)
  }

  function FoundWith(fs: Faces, s: string, room: nat, done: seq<Tile>, t: nat): seq<seq<Tile>>
    requires |done| < room && t < |fs|
    decreases room - |done|, 0
  {
    var i := FaceAt(fs[t], s, 0);
    if i.None? then [] else Found(fs, s[|fs[t][i.value]|..], room, done + [t])
  }

  /** `w` is a spelling of `s`, or of as much of it as `room` tiles take. */
  ghost predicate Spelling(fs: Faces, s: string, room: nat, w: seq<Tile>) {
    |w| <= room && exists n :: 0 <= n <= |s| && Spells(fs, w, s[..n]) && (n == |s| || |w| == room)
  }

  /** The tile sequences reported are exactly the spellings. */
  lemma {:induction false} FoundExact(fs: Faces, s: string, room: nat, done: seq<Tile>, w: seq<Tile>)
    requires FacesOk(fs) && |done| <= room
    ensures done + w in Found(fs, s, room, done) <==> Spelling(fs, s, room - |done|, w)
    decreases room - |done|, |fs| + 1
  {
    if |done| == room || s == "" {
      assert done + w == done <==> w == [];
      assert s[..0] == "";
      if w != [] && s == "" { NothingSpelled(fs, w); }
    } else {
      if w == [] {
        FoundLonger(fs, s, room, done, 0, done);
        assert done + w == done;
      } else {
        FoundFromExact(fs, s, room, done, 0, w);
        SpellingFirst(fs, s, room - |done|, w);
      }
    }
  }

  lemma NothingSpelled(fs: Faces, w: seq<Tile>)
    requires FacesOk(fs) && w != []
    ensures !Spells(fs, w, "")
  {
    assert w[0] < |fs| ==> forall i :: 0 <= i < |fs[w[0]]| ==> fs[w[0]][i] != "";
  }

  /** `w`, of at least one tile, is what the part of the search with its first tile reports. */
  lemma {:induction false} FoundFromExact(fs: Faces, s: string, room: nat, done: seq<Tile>, t: nat, w: seq<Tile>)
    requires FacesOk(fs) && |done| < room && t <= |fs| && w != []
    ensures done + w in FoundFrom(fs, s, room, done, t) <==>
              t <= w[0] < |fs| && var i := FaceAt(fs[w[0]], s, 0);
              i.Some? && Spelling(fs, s[|fs[w[0]][i.value]|..], room - |done| - 1, w[1..])
    decreases room - |done|, |fs| - t
  {
    if t < |fs| {
      FoundFromExact(fs, s, room, done, t + 1, w);
      FoundWithBegins(fs, s, room, done, t, done + w);
      var i := FaceAt(fs[t], s, 0);
      if i.Some? && w[0] == t {
        FoundExact(fs, s[|fs[t][i.value]|..], room, done + [t], w[1..]);
        assert done + w == done + [t] + w[1..];
      }
    }
  }

  /** What is reported begins with what was done before. */
  lemma {:induction false} FoundBegins(fs: Faces, s: string, room: nat, done: seq<Tile>, u: seq<Tile>)
    requires |done| <= room && u in Found(fs, s, room, done)
    ensures done <= u
    decreases room - |done|, |fs| + 1
  {
    if !(|done| == room || s == "") {
      FoundLonger(fs, s, room, done, 0, u);
    }
  }

  lemma {:induction false} FoundLonger(fs: Faces, s: string, room: nat, done: seq<Tile>, t: nat, u: seq<Tile>)
    requires |done| < room && t <= |fs|
    ensures u in FoundFrom(fs, s, room, done, t) ==> done <= u && |done| < |u|
    decreases room - |done|, |fs| - t
  {
    if t < |fs| {
      FoundLonger(fs, s, room, done, t + 1, u);
      FoundWithBegins(fs, s, room, done, t, u);
    }
  }

  lemma {:induction false} FoundWithBegins(fs: Faces, s: string, room: nat, done: seq<Tile>, t: nat, u: seq<Tile>)
    requires |done| < room && t < |fs|
    ensures u in FoundWith(fs, s, room, done, t) ==> done <= u && |done| < |u| && u[|done|] == t
    decreases room - |done|, 0
  {
    var i := FaceAt(fs[t], s, 0);
    if i.Some? && u in FoundWith(fs, s, room, done, t) {
      FoundBegins(fs, s[|fs[t][i.value]|..], room, done + [t], u);
      assert (done + [t])[..|done|] == done && (done + [t])[|done|] == t;
    }
  }

  /** A spelling's first tile is matched by the one face that can match. */
  lemma SpellingFirst(fs: Faces, s: string, room: nat, w: seq<Tile>)
    requires FacesOk(fs) && w != [] && room > 0
    ensures Spelling(fs, s, room, w) <==>
              w[0] < |fs| && var i := FaceAt(fs[w[0]], s, 0);
              i.Some? && Spelling(fs, s[|fs[w[0]][i.value]|..], room - 1, w[1..])
  {
    if w[0] < |fs| && FaceAt(fs[w[0]], s, 0).Some? {
      var i := FaceAt(fs[w[0]], s, 0).value;
      SpellingRest(fs, s, room, w, i);
    } else {
      forall n | 0 <= n <= |s|
        ensures !Spells(fs, w, s[..n])
      {
        if w[0] < |fs| {
          forall j | 0 <= j < |fs[w[0]]|
            ensures !(fs[w[0]][j] <= s[..n])
          {
            PrefixOfTake(fs[w[0]][j], s, n);
          }
        }
      }
    }
  }

  lemma PrefixOfTake(f: string, s: string, n: nat)
    requires n <= |s|
    ensures f <= s[..n] <==> f <= s && |f| <= n
  {}

  lemma SpellingRest(fs: Faces, s: string, room: nat, w: seq<Tile>, i: nat)
    requires FacesOk(fs) && w != [] && room > 0 && w[0] < |fs| && i < |fs[w[0]]| && fs[w[0]][i] <= s
    ensures Spelling(fs, s, room, w) <==> Spelling(fs, s[|fs[w[0]][i]|..], room - 1, w[1..])
  {
    hide Spells, FacesOk;
    if Spelling(fs, s, room, w) {
      RestSpelled(fs, s, room, w, i);
    }
    if Spelling(fs, s[|fs[w[0]][i]|..], room - 1, w[1..]) {
      WholeSpelled(fs, s, room, w, i);
    }
  }

  lemma RestSpelled(fs: Faces, s: string, room: nat, w: seq<Tile>, i: nat)
    requires FacesOk(fs) && w != [] && room > 0 && w[0] < |fs| && i < |fs[w[0]]| && fs[w[0]][i] <= s
    requires Spelling(fs, s, room, w)
    ensures Spelling(fs, s[|fs[w[0]][i]|..], room - 1, w[1..])
  {
    hide Spells, FacesOk;
    var f := fs[w[0]][i];
    var n :| 0 <= n <= |s| && Spells(fs, w, s[..n]) && (n == |s| || |w| == room);
    SpellsFirst(fs, s, w, n, i);
    assert Spells(fs, w[1..], s[|f|..][..n - |f|]);
  }

  lemma WholeSpelled(fs: Faces, s: string, room: nat, w: seq<Tile>, i: nat)
    requires FacesOk(fs) && w != [] && room > 0 && w[0] < |fs| && i < |fs[w[0]]| && fs[w[0]][i] <= s
    requires Spelling(fs, s[|fs[w[0]][i]|..], room - 1, w[1..])
    ensures Spelling(fs, s, room, w)
  {
    hide Spells, FacesOk;
    var f := fs[w[0]][i];
    var rest := s[|f|..];
    var m :| 0 <= m <= |rest| && Spells(fs, w[1..], rest[..m]) && (m == |rest| || |w[1..]| == room - 1);
    SpellsFirst(fs, s, w, |f| + m, i);
    assert Spells(fs, w, s[..|f| + m]);
  }

  /** Only one face of a tile can begin a string. */
  lemma SpellsFirst(fs: Faces, s: string, w: seq<Tile>, n: nat, i: nat)
    requires FacesOk(fs) && w != [] && w[0] < |fs| && i < |fs[w[0]]| && fs[w[0]][i] <= s && n <= |s|
    ensures var f := fs[w[0]][i];
            Spells(fs, w, s[..n]) <==> |f| <= n && Spells(fs, w[1..], s[|f|..][..n - |f|])
  {
    var faces := fs[w[0]];
    var f := faces[i];
    if |f| <= n {
      PrefixOfTake(f, s, n);
      assert s[..n][|f|..] == s[|f|..][..n - |f|];
    }
    forall j | 0 <= j < |faces| && faces[j] <= s[..n]
      ensures j == i && |f| <= n
    {
      PrefixOfTake(faces[j], s, n);
      OneFace(fs, w[0], s, i, j);
    }
  }

  lemma OneFace(fs: Faces, t: nat, s: string, i: nat, j: nat)
    requires FacesOk(fs) && t < |fs| && i < |fs[t]| && j < |fs[t]| && fs[t][i] <= s && fs[t][j] <= s
    ensures i == j
  {
    var f, g := fs[t][i], fs[t][j];
    assert |f| <= |g| ==> f <= g;
    assert |g| <= |f| ==> g <= f;
  }

  /** dict_tilesForString: for a string of at most 32 characters, its spellings. */
  lemma SpellingsExact(fs: Faces, s: string, w: seq<Tile>)
    requires FacesOk(fs) && |s| <= 32
    ensures w in Found(fs, s, 32, []) <==> Spells(fs, w, s)
  {
    FoundExact(fs, s, 32, [], w);
    assert [] + w == w;
    if Spells(fs, w, s) {
      SpellsShort(fs, w, s);
      assert s[..|s|] == s;
    }
    if Spelling(fs, s, 32, w) {
      var n :| 0 <= n <= |s| && Spells(fs, w, s[..n]) && (n == |s| || |w| == 32);
      SpellsShort(fs, w, s[..n]);
      assert s[..|s|] == s;
    }
  }

  lemma {:induction false} SpellsShort(fs: Faces, w: seq<Tile>, s: string)
    requires FacesOk(fs) && Spells(fs, w, s)
    ensures |w| <= |s|
    decreases |w|
  {
    if w != [] {
      var i :| 0 <= i < |fs[w[0]]| && fs[w[0]][i] <= s && Spells(fs, w[1..], s[|fs[w[0]][i]|..]);
      SpellsShort(fs, w[1..], s[|fs[w[0]][i]|..]);
    }
  }

  // ----- the search in place ----------------------------------------------------------------

  /** The reports up to and including the first that is answered with "stop". */
  function UpToStop(all: seq<seq<Tile>>, goOn: seq<Tile> -> bool): seq<seq<Tile>> {
    if all == [] then [] else [all[0]] + if goOn(all[0]) then UpToStop(all[1..], goOn) else []
  }

  predicate AllGoOn(all: seq<seq<Tile>>, goOn: seq<Tile> -> bool) {
    forall i :: 0 <= i < |all| ==> goOn(all[i])
  }

  lemma AllGoOnConcat(a: seq<seq<Tile>>, b: seq<seq<Tile>>, goOn: seq<Tile> -> bool)
    ensures AllGoOn(a + b, goOn) == (AllGoOn(a, goOn) && AllGoOn(b, goOn))
  {
    assert forall i :: 0 <= i < |a| ==> (a + b)[i] == a[i];
    assert forall i :: 0 <= i < |b| ==> (a + b)[|a| + i] == b[i];
  }

  lemma AllGoOnFirst(a: seq<seq<Tile>>, goOn: seq<Tile> -> bool)
    requires a != []
    ensures AllGoOn(a, goOn) == (goOn(a[0]) && AllGoOn(a[1..], goOn))
  {
    AllGoOnConcat([a[0]], a[1..], goOn);
    assert a == [a[0]] + a[1..];
  }

  lemma {:induction false} UpToStopConcat(a: seq<seq<Tile>>, b: seq<seq<Tile>>, goOn: seq<Tile> -> bool)
    ensures UpToStop(a + b, goOn) == UpToStop(a, goOn) + if AllGoOn(a, goOn) then UpToStop(b, goOn) else []
    ensures AllGoOn(a + b, goOn) == (AllGoOn(a, goOn) && AllGoOn(b, goOn))
    decreases |a|
  {
    hide AllGoOn;
    AllGoOnConcat(a, b, goOn);
    if a == [] {
      NoneYet([], goOn);
      assert a + b == b;
    } else {
      assert (a + b)[0] == a[0] && (a + b)[1..] == a[1..] + b;
      UpToStopConcat(a[1..], b, goOn);
      AllGoOnFirst(a, goOn);
    }
  }

  /** A caller of dict_tilesForString that keeps what it is given. */
  class Finder {
    const fs: Faces
    const goOn: seq<Tile> -> bool
    var reported: seq<seq<Tile>>

    constructor (fs: Faces, goOn: seq<Tile> -> bool)
      ensures this.fs == fs && this.goOn == goOn && reported == []
    {
      this.fs, this.goOn, reported := fs, goOn, [];
    }

    /** tilesForStringImpl, over one buffer of tiles. */
    method TilesForString(s: string, tiles: array<Tile>, nFound: nat) returns (more: bool)
      requires nFound <= tiles.Length
      modifies `reported, tiles
      ensures tiles[..nFound] == old(tiles[..nFound])
      ensures var all := Found(fs, s, tiles.Length, old(tiles[..nFound]));
              reported == old(reported) + UpToStop(all, goOn) && more == AllGoOn(all, goOn)
      decreases tiles.Length - nFound, 2
    {
      hide *;
      ghost var done, room := tiles[..nFound], tiles.Length;
      NoneYet(done, goOn);
      FoundStart(fs, s, room, done);
      if nFound == tiles.Length || s == "" {
        reported := reported + [tiles[..nFound]];
        more := goOn(tiles[..nFound]);
      } else {
        more := TryTiles(s, tiles, nFound);
      }
    }

    /** The loop over the tiles. */
    method TryTiles(s: string, tiles: array<Tile>, nFound: nat) returns (more: bool)
      requires nFound < tiles.Length
      modifies `reported, tiles
      ensures tiles[..nFound] == old(tiles[..nFound])
      ensures var all := FoundFrom(fs, s, tiles.Length, old(tiles[..nFound]), 0);
              reported == old(reported) + UpToStop(all, goOn) && more == AllGoOn(all, goOn)
      decreases tiles.Length - nFound, 1
    {
      hide *;
      ghost var done, room, start := tiles[..nFound], tiles.Length, reported;
      ghost var all := FoundFrom(fs, s, room, done, 0);
      NoneYet(done, goOn);
      more := true;
      var tile := 0;
      ghost var before: seq<seq<Tile>> := [];
      assert before + FoundFrom(fs, s, room, done, 0) == all;
      while more && tile < |fs|
        invariant tile <= |fs| && tiles[..nFound] == done
        invariant before + FoundFrom(fs, s, room, done, tile) == all
        invariant reported == start + UpToStop(before, goOn) && more == AllGoOn(before, goOn)
      {
        FoundStep(fs, s, room, done, tile, before);
        more := TryTile(s, tiles, nFound, tile);
        ReportMore(start, before, FoundWith(fs, s, room, done, tile), goOn);
        before := before + FoundWith(fs, s, room, done, tile);
        tile := tile + 1;
      }
      FoundStart(fs, s, room, done);
      UpToStopConcat(before, FoundFrom(fs, s, room, done, tile), goOn);
      NothingMore(start, UpToStop(before, goOn));
    }

    /** What the loop does with one tile. */
    method TryTile(s: string, tiles: array<Tile>, nFound: nat, tile: Tile) returns (more: bool)
      requires nFound < tiles.Length && tile < |fs|
      modifies `reported, tiles
      ensures tiles[..nFound] == old(tiles[..nFound])
      ensures var here := FoundWith(fs, s, tiles.Length, old(tiles[..nFound]), tile);
              reported == old(reported) + UpToStop(here, goOn) && more == AllGoOn(here, goOn)
      decreases tiles.Length - nFound, 0
    {
      hide *;
      ghost var done := tiles[..nFound];
      FoundStep(fs, s, tiles.Length, done, tile, []);
      var i := MatchingFace(fs[tile], s);
      if i.Some? {
        tiles[nFound] := tile;
        Extended(tiles[..nFound + 1], done, tile);
        more := TilesForString(s[|fs[tile][i.value]|..], tiles, nFound + 1);
        Extended(tiles[..nFound + 1], done, tile);
        assert tiles[..nFound] == tiles[..nFound + 1][..nFound];
      } else {
        NoneYet([], goOn);
        more := true;
      }
    }
  }

  lemma Extended(s: seq<Tile>, done: seq<Tile>, t: Tile)
    requires |s| == |done| + 1
    ensures s == done + [t] <==> s[..|done|] == done && s[|done|] == t
  {
    if s[..|done|] == done && s[|done|] == t {
      assert s == s[..|done|] + [s[|done|]];
    }
  }

  /** What is reported after another part, if nothing before it was a stop. */
  lemma ReportMore(start: seq<seq<Tile>>, before: seq<seq<Tile>>, here: seq<seq<Tile>>, goOn: seq<Tile> -> bool)
    requires AllGoOn(before, goOn)
    ensures start + UpToStop(before + here, goOn) == start + UpToStop(before, goOn) + UpToStop(here, goOn)
    ensures AllGoOn(before + here, goOn) == AllGoOn(here, goOn)
  {
    hide UpToStop, AllGoOn;
    UpToStopConcat(before, here, goOn);
  }

  lemma NothingMore(start: seq<seq<Tile>>, a: seq<seq<Tile>>)
    ensures a + [] == a && start + (a + []) == start + a
  {}

  lemma NoneYet(w: seq<Tile>, goOn: seq<Tile> -> bool)
    ensures UpToStop([], goOn) == [] && AllGoOn([], goOn)
    ensures UpToStop([w], goOn) == [w] && AllGoOn([w], goOn) == goOn(w)
  {}

  lemma FoundStart(fs: Faces, s: string, room: nat, done: seq<Tile>)
    requires |done| <= room
    ensures Found(fs, s, room, done) == if |done| == room || s == "" then [done] else FoundFrom(fs, s, room, done, 0)
    ensures |done| < room ==> FoundFrom(fs, s, room, done, |fs|) == []
  {}

  lemma FoundStep(fs: Faces, s: string, room: nat, done: seq<Tile>, t: nat, before: seq<seq<Tile>>)
    requires |done| < room && t < |fs|
    ensures var here, rest := FoundWith(fs, s, room, done, t), FoundFrom(fs, s, room, done, t + 1);
            before + FoundFrom(fs, s, room, done, t) == (before + here) + rest
    ensures var i := FaceAt(fs[t], s, 0);
            FoundWith(fs, s, room, done, t) == if i.None? then [] else Found(fs, s[|fs[t][i.value]|..], room, done + [t])
  {}

  /** The walk over a tile's faces. */
  method MatchingFace(faces: seq<string>, s: string) returns (r: Option<nat>)
    ensures r == FaceAt(faces, s, 0)
  {
    var i := 0;
    while i < |faces|
      invariant i <= |faces| && FaceAt(faces, s, 0) == FaceAt(faces, s, i)
    {
      if faces[i] <= s {
        return Some(i);
      }
      i := i + 1;
    }
    return None;
  }

  // ----- from tiles to text -----------------------------------------------------------------

  predicate Shown(fs: Faces, w: seq<Tile>) {
    forall k :: 0 <= k < |w| ==> w[k] < |fs| && fs[w[k]] != []
  }

  function Text(fs: Faces, w: seq<Tile>, delim: string): string
    requires Shown(fs, w)
  {
    if w == [] then ""
    else Text(fs, w[..|w| - 1], delim) + (if |w| > 1 then delim else "") + fs[w[|w| - 1]][0]
  }

  /** appendIfSpace; None is the null pointer. */
  method AppendIfSpace(buf: array<char>, at: nat, text: string) returns (r: Option<nat>)
    requires at <= buf.Length
    modifies buf
    ensures buf[..at] == old(buf[..at])
    ensures if at + |text| < buf.Length then r == Some(at + |text|) && buf[..at + |text|] == old(buf[..at]) + text
            else r == None
  {
    if at + |text| < buf.Length {
      forall k | 0 <= k < |text| {
        buf[at + k] := text[k];
      }
      r := Some(at + |text|);
    } else {
      r := None;
    }
  }

  /** dict_tilesToString.  A delimiter must fit, for the source goes on with the null pointer. */
  method TilesToString(fs: Faces, w: seq<Tile>, buf: array<char>, delim: string) returns (result: nat)
    requires Shown(fs, w) && (delim == "" || |Text(fs, w, delim)| < buf.Length)
    modifies buf
    ensures var text := Text(fs, w, delim);
            if |text| < buf.Length then result == |text| && buf[..result] == text && buf[result] == '\0' else result == 0
  {
    hide Text;
    TextOfNone(fs, delim);
    assert w[..0] == [] && buf[..0] == [];
    var bufp: Option<nat> := Some(0);
    var ii: nat := 0;
    while ii < |w| && bufp.Some?
      invariant ii <= |w|
      invariant if bufp.Some? then bufp.value <= buf.Length && buf[..bufp.value] == Text(fs, w[..ii], delim)
                else ii > 0 && delim == "" && buf.Length <= |Text(fs, w[..ii], delim)|
    {
      TextMore(fs, w, ii, delim);
      TextGrows(fs, w, ii + 1, delim);
      if delim != "" && ii > 0 {
        bufp := AppendIfSpace(buf, bufp.value, delim);
      }
      bufp := AppendIfSpace(buf, bufp.value, fs[w[ii]][0]);
      ii := ii + 1;
    }
    TextGrows(fs, w, ii, delim);
    assert w[..|w|] == w;
    result := 0;
    if bufp.Some? && bufp.value < buf.Length {
      buf[bufp.value] := '\0';
      result := bufp.value;
    }
  }

  lemma TextOfNone(fs: Faces, delim: string)
    ensures Text(fs, [], delim) == ""
  {}

  lemma TextMore(fs: Faces, w: seq<Tile>, n: nat, delim: string)
    requires Shown(fs, w) && n < |w|
    ensures Text(fs, w[..n + 1], delim) == Text(fs, w[..n], delim) + (if n > 0 then delim else "") + fs[w[n]][0]
  {
    assert w[..n + 1][..n] == w[..n];
  }

  lemma {:induction false} TextGrows(fs: Faces, w: seq<Tile>, n: nat, delim: string)
    requires Shown(fs, w) && n <= |w|
    ensures |Text(fs, w[..n], delim)| <= |Text(fs, w, delim)|
    decreases |w|
  {
    if n == |w| {
      assert w[..n] == w;
    } else {
      TextGrows(fs, w[..|w| - 1], n, delim);
      assert w[..|w| - 1][..n] == w[..n];
    }
  }

  // ----- there and back ---------------------------------------------------------------------

  /** Tiles always spell the text shown for them. */
  lemma {:induction false} TextSpelled(fs: Faces, w: seq<Tile>)
    requires Shown(fs, w)
    ensures Spells(fs, w, Text(fs, w, ""))
    decreases |w|
  {
    if w != [] {
      TextFirst(fs, w);
      TextSpelled(fs, w[1..]);
      var f, rest := fs[w[0]][0], Text(fs, w[1..], "");
      assert f <= f + rest && (f + rest)[|f|..] == rest;
    }
  }

  lemma {:induction false} TextFirst(fs: Faces, w: seq<Tile>)
    requires Shown(fs, w) && w != []
    ensures Text(fs, w, "") == fs[w[0]][0] + Text(fs, w[1..], "")
    decreases |w|
  {
    var n := |w| - 1;
    if n > 0 {
      TextFirst(fs, w[..n]);
      assert w[..n][1..] == w[1..][..n - 1];
    }
  }

  /** With one face to a tile, what spells a string is shown as that string. */
  lemma {:induction false} SpelledText(fs: Faces, w: seq<Tile>, s: string)
    requires (forall t :: 0 <= t < |fs| ==> |fs[t]| == 1) && Spells(fs, w, s)
    ensures Shown(fs, w) && Text(fs, w, "") == s
    decreases |w|
  {
    if w != [] {
      SpelledText(fs, w[1..], s[|fs[w[0]][0]|..]);
      assert Shown(fs, w) by {
        forall k | 0 <= k < |w|
          ensures w[k] < |fs| && fs[w[k]] != []
        {
          if k > 0 { assert w[k] == w[1..][k - 1]; }
        }
      }
      TextFirst(fs, w);
    }
  }

  /** With one face to a tile, tiles are reported for a short string exactly if it is their text. */
  lemma ThereAndBack(fs: Faces, w: seq<Tile>, s: string)
    requires FacesOk(fs) && (forall t :: 0 <= t < |fs| ==> |fs[t]| == 1) && |s| <= 32
    ensures w in Found(fs, s, 32, []) <==> Shown(fs, w) && Text(fs, w, "") == s
  {
    SpellingsExact(fs, s, w);
    if Spells(fs, w, s) {
      SpelledText(fs, w, s);
    } else if Shown(fs, w) {
      TextSpelled(fs, w);
    }
  }
}
