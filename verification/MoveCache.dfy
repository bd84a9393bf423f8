/** The bounded cache of best moves and its paging (engine.c:268-360, 1207-1367), for a human
    player stepping from higher to lower moves. */
module MoveCache {
  import opened Wrappers
  import opened MoveOrder

  const NUM_SAVED_ENGINE_MOVES: nat := 10

  /** A zeroed slot, which counts as empty. */
  const EMPTY_MOVE: PossibleMove := PossibleMove(0, 0, [], [])

  /** What engine_reset puts in lastSeenMove: above every move that can be found. */
  const TOP_MOVE: PossibleMove := PossibleMove(0xffff, 0, [], [])

  /** A slot's move, if its score says that it is in use. */
  ghost function Slot(m: PossibleMove): multiset<PossibleMove> {
    if m.score > 0 then multiset{m} else multiset{}
  }

  /** The moves in the slots that are in use. */
  ghost function InUse(s: seq<PossibleMove>): multiset<PossibleMove> {
    if s == [] then multiset{} else Slot(s[0]) + InUse(s[1..])
  }

  lemma SumAssoc(a: multiset<PossibleMove>, b: multiset<PossibleMove>, c: multiset<PossibleMove>)
    ensures a + (b + c) == (a + b) + c
    ensures a + b == b + a
  {}

  /** The positive-score candidates strictly below `limit`. */
  ghost function Below(cands: seq<PossibleMove>, limit: PossibleMove): multiset<PossibleMove> {
    if cands == [] then multiset{}
    else
      var m := cands[|cands| - 1];
      Below(cands[..|cands| - 1], limit) + if m.score > 0 && CmpMoves(m, limit) < 0 then multiset{m} else multiset{}
  }

  lemma NoneBelow(limit: PossibleMove)
    ensures Below([], limit) == Below([], EMPTY_MOVE)
  {}

  lemma BelowMore(cands: seq<PossibleMove>, i: nat, limit: PossibleMove)
    requires i < |cands|
    ensures Below(cands[..i + 1], limit) ==
              if cands[i].score > 0 && CmpMoves(cands[i], limit) < 0 then Below(cands[..i], limit) + multiset{cands[i]}
              else Below(cands[..i], limit)
  {
    hide CmpMoves;
    assert cands[..i + 1][..i] == cands[..i];
    assert Below(cands[..i], limit) + multiset{} == Below(cands[..i], limit);
  }

  lemma {:induction false} BelowHas(cands: seq<PossibleMove>, limit: PossibleMove, m: PossibleMove)
    ensures m in Below(cands, limit) <==> m in cands && m.score > 0 && CmpMoves(m, limit) < 0
  {
    if cands != [] {
      BelowHas(cands[..|cands| - 1], limit, m);
      assert cands == cands[..|cands| - 1] + [cands[|cands| - 1]];
    }
  }

  /** Every move that can be found is below TOP_MOVE. */
  lemma UnderTop(m: PossibleMove)
    ensures m.score < TOP_MOVE.score ==> CmpMoves(m, TOP_MOVE) < 0
  {}

  lemma {:induction false} InUseHas(s: seq<PossibleMove>, m: PossibleMove)
    ensures m in InUse(s) <==> m in s && m.score > 0
  {
    if s != [] {
      InUseHas(s[1..], m);
      assert s == [s[0]] + s[1..];
    }
  }

  lemma {:induction false} InUseConcat(a: seq<PossibleMove>, b: seq<PossibleMove>)
    ensures InUse(a + b) == InUse(a) + InUse(b)
  {
    hide Slot;
    if a == [] {
      assert a + b == b;
    } else {
      InUseConcat(a[1..], b);
      assert (a + b)[0] == a[0] && (a + b)[1..] == a[1..] + b;
      SumAssoc(Slot(a[0]), InUse(a[1..]), InUse(b));
    }
  }

  lemma InUseOne(m: PossibleMove)
    ensures InUse([m]) == Slot(m)
  {
    assert [m][1..] == [];
  }

  lemma {:induction false} InUseAround(s: seq<PossibleMove>, i: nat)
    requires i < |s|
    ensures InUse(s) == Slot(s[i]) + (InUse(s[..i]) + InUse(s[i + 1..]))
  {
    hide InUse, Slot;
    var a, b := s[..i], s[i + 1..];
    assert s == a + ([s[i]] + b);
    InUseConcat(a, [s[i]] + b);
    InUseConcat([s[i]], b);
    InUseOne(s[i]);
    SumAssoc(InUse(a), Slot(s[i]), InUse(b));
    SumAssoc(Slot(s[i]), InUse(a), InUse(b));
  }

  /** Overwriting one slot exchanges what it held. */
  lemma {:induction false} InUseUpdate(s: seq<PossibleMove>, i: nat, m: PossibleMove)
    requires i < |s|
    ensures InUse(s[i := m]) == InUse(s) - Slot(s[i]) + Slot(m)
  {
    hide InUse, Slot;
    var t := s[i := m];
    assert t[..i] == s[..i] && t[i + 1..] == s[i + 1..];
    InUseAround(s, i);
    InUseAround(t, i);
    Exchange(Slot(s[i]), Slot(m), InUse(s[..i]) + InUse(s[i + 1..]));
  }

  lemma Exchange(a: multiset<PossibleMove>, b: multiset<PossibleMove>, rest: multiset<PossibleMove>)
    ensures b + rest == (a + rest) - a + b
    ensures a <= a + rest
  {}

  lemma {:induction false} InUseSwap(s: seq<PossibleMove>, i: nat)
    requires i + 1 < |s|
    ensures InUse(s[i := s[i + 1]][i + 1 := s[i]]) == InUse(s)
  {
    hide InUse, Slot;
    var a, b := s[i], s[i + 1];
    InUseUpdate(s, i, b);
    InUseUpdate(s[i := b], i + 1, a);
    InUseAround(s, i);
    Exchange(Slot(a), Slot(b), InUse(s[..i]) + InUse(s[i + 1..]));
    SwapBack(InUse(s), Slot(a), Slot(b));
  }

  lemma SwapBack(u: multiset<PossibleMove>, a: multiset<PossibleMove>, b: multiset<PossibleMove>)
    requires a <= u
    ensures u - a + b - b + a == u
  {}

  lemma {:induction false} InUseSize(s: seq<PossibleMove>)
    ensures |InUse(s)| <= |s|
    ensures |InUse(s)| == |s| <==> forall i :: 0 <= i < |s| ==> s[i].score > 0
  {
    if s != [] {
      InUseSize(s[1..]);
    }
  }

  ghost predicate Sorted(s: seq<PossibleMove>) {
    forall i, j :: 0 <= i < j < |s| ==> CmpMoves(s[i], s[j]) <= 0
  }

  class MoveIterationData {
    const savedMoves: array<PossibleMove>
    var lastSeenMove: PossibleMove
    var nInMoveCache: nat
    var bottom: nat
    var curCacheIndex: int

    /** The answer last given since the search was started afresh. */
    ghost var prev: Option<PossibleMove>

    constructor ()
      ensures savedMoves.Length == NUM_SAVED_ENGINE_MOVES && fresh(savedMoves)
      ensures nInMoveCache == 0 && prev == None
    {
      savedMoves := new PossibleMove[NUM_SAVED_ENGINE_MOVES](_ => EMPTY_MOVE);
      lastSeenMove, nInMoveCache, bottom, curCacheIndex, prev := TOP_MOVE, 0, 0, 0, None;
    }

    /** saveMoveIfQualifies: find an empty slot, else the lowest move, and overwrite it. */
    method SaveMoveIfQualifies(posmove: PossibleMove, ghost all: multiset<PossibleMove>)
      requires savedMoves.Length == NUM_SAVED_ENGINE_MOVES
      requires Best(InUse(savedMoves[..]), all, NUM_SAVED_ENGINE_MOVES)
      modifies savedMoves
      ensures Best(InUse(savedMoves[..]),
                   if posmove.score > 0 && CmpMoves(posmove, lastSeenMove) < 0 then all + multiset{posmove} else all,
                   NUM_SAVED_ENGINE_MOVES)
    {
      hide Best, InUse, CmpMoves;
      if CmpMoves(posmove, lastSeenMove) >= 0 {
        return;
      }
      var mostest, foundEmpty := FindSlot();
      ghost var s := savedMoves[..];
      if !foundEmpty {
        if CmpMoves(posmove, savedMoves[mostest]) <= 0 {
          LowestDrops(s, all, mostest, posmove);
          return;
        }
      }
      savedMoves[mostest] := posmove;
      assert savedMoves[..] == s[mostest := posmove];
      if foundEmpty {
        EmptyFills(s, all, mostest, posmove);
      } else {
        LowestReplaced(s, all, mostest, posmove);
      }
    }

    /** The slot to overwrite: the first empty one, else that of the lowest move. */
    method FindSlot() returns (mostest: nat, foundEmpty: bool)
      requires savedMoves.Length == NUM_SAVED_ENGINE_MOVES
      ensures mostest < NUM_SAVED_ENGINE_MOVES
      ensures foundEmpty ==> savedMoves[mostest].score == 0
      ensures !foundEmpty ==> forall i :: 0 <= i < NUM_SAVED_ENGINE_MOVES ==>
                savedMoves[i].score > 0 && CmpMoves(savedMoves[mostest], savedMoves[i]) <= 0
    {
      var found := -1;
      var ii := 0;
      while ii < NUM_SAVED_ENGINE_MOVES
        invariant 0 <= ii <= NUM_SAVED_ENGINE_MOVES && -1 <= found < ii && (found == -1 <==> ii == 0)
        invariant forall i :: 0 <= i < ii ==> savedMoves[i].score > 0 && CmpMoves(savedMoves[found], savedMoves[i]) <= 0
      {
        hide CmpMoves;
        if savedMoves[ii].score == 0 {
          return ii, true;
        } else if found == -1 {
          CmpOrder(savedMoves[ii], savedMoves[ii], savedMoves[ii]);
          found := ii;
        } else if CmpMoves(savedMoves[found], savedMoves[ii]) > 0 {
          LowerStill(savedMoves[..], found, ii);
          found := ii;
        }
        ii := ii + 1;
      }
      return found, false;
    }

    /** The sort in chooseMove: passes that swap neighbours until none are out of order. */
    method SortMoves()
      requires savedMoves.Length == NUM_SAVED_ENGINE_MOVES
      modifies savedMoves
      ensures Sorted(savedMoves[..]) && InUse(savedMoves[..]) == old(InUse(savedMoves[..]))
    {
      hide CmpMoves, InUse;
      var done := false;
      ghost var settled := NUM_SAVED_ENGINE_MOVES;
      while !done
        invariant InUse(savedMoves[..]) == old(InUse(savedMoves[..]))
        invariant Settled(savedMoves[..], settled)
        invariant done ==> Sorted(savedMoves[..])
        decreases settled, if done then 0 else 1
      {
        done := true;
        var ii := 0;
        while ii < NUM_SAVED_ENGINE_MOVES - 1
          invariant 0 <= ii <= NUM_SAVED_ENGINE_MOVES - 1
          invariant InUse(savedMoves[..]) == old(InUse(savedMoves[..]))
          invariant Carried(savedMoves[..], settled, ii)
          invariant done ==> NeighboursOk(savedMoves[..], ii)
          invariant !done ==> settled >= 1
        {
          ghost var s := savedMoves[..];
          if CmpMoves(savedMoves[ii], savedMoves[ii + 1]) > 0 {
            CarrySwap(s, settled, ii);
            InUseSwap(s, ii);
            savedMoves[ii], savedMoves[ii + 1] := savedMoves[ii + 1], savedMoves[ii];
            assert savedMoves[..] == s[ii := s[ii + 1]][ii + 1 := s[ii]];
            done := false;
          } else {
            CarryKeep(s, settled, ii);
          }
          ii := ii + 1;
        }
        if done {
          NeighboursSort(savedMoves[..]);
        } else {
          settled := settled - 1;
        }
      }
    }

    predicate MoveCacheEmpty()
      reads this
    {
      nInMoveCache == 0 || curCacheIndex <= bottom
    }

    /** Positions `bottom..` hold, in order, the best moves below `lastSeenMove`; the one last
        given is at `curCacheIndex`. */
    ghost predicate Valid(cands: seq<PossibleMove>)
      reads this, savedMoves
    {
      && savedMoves.Length == NUM_SAVED_ENGINE_MOVES
      && (nInMoveCache == 0 ==> prev == None)
      && (nInMoveCache > 0 ==>
            && bottom + nInMoveCache == NUM_SAVED_ENGINE_MOVES
            && PageOk(savedMoves[..], bottom, Below(cands, lastSeenMove))
            && bottom <= curCacheIndex < NUM_SAVED_ENGINE_MOVES
            && prev == Some(savedMoves[curCacheIndex]))
    }

    /** engine_reset and set_search_limits, called when the cache has been walked through: the limit
        is the last answer, so what the next page may hold is exactly what has not been answered. */
    method SetSearchLimits(ghost cands: seq<PossibleMove>)
      requires Valid(cands) && MoveCacheEmpty() && forall i :: 0 <= i < |cands| ==> cands[i].score < TOP_MOVE.score
      modifies this`lastSeenMove
      ensures lastSeenMove == if prev.Some? then prev.value else TOP_MOVE
      ensures forall m :: m in Below(cands, lastSeenMove) <==>
                m in cands && m.score > 0 && (prev.Some? ==> CmpMoves(m, prev.value) < 0)
    {
      hide CmpMoves, Below, PageOk;
      assert prev.Some? ==> nInMoveCache > 0 && curCacheIndex == bottom;
      lastSeenMove := if nInMoveCache > 0 then savedMoves[bottom] else TOP_MOVE;
      forall m
        ensures m in Below(cands, lastSeenMove) <==>
                  m in cands && m.score > 0 && (prev.Some? ==> CmpMoves(m, prev.value) < 0)
      {
        BelowHas(cands, lastSeenMove, m);
        UnderTop(m);
      }
    }

    /** The search: clear the slots, then offer every candidate. */
    method Search(cands: seq<PossibleMove>)
      requires savedMoves.Length == NUM_SAVED_ENGINE_MOVES
      modifies savedMoves
      ensures Best(InUse(savedMoves[..]), Below(cands, lastSeenMove), NUM_SAVED_ENGINE_MOVES)
    {
      hide CmpMoves, Best, InUse, Below;
      for i := 0 to savedMoves.Length
        invariant forall j :: 0 <= j < i ==> savedMoves[j] == EMPTY_MOVE
      {
        savedMoves[i] := EMPTY_MOVE;
      }
      NoneInUse(savedMoves[..]);
      NoneBelow(lastSeenMove);
      assert cands[..0] == [];
      for i := 0 to |cands|
        invariant Best(InUse(savedMoves[..]), Below(cands[..i], lastSeenMove), NUM_SAVED_ENGINE_MOVES)
      {
        SaveMoveIfQualifies(cands[i], Below(cands[..i], lastSeenMove));
        BelowMore(cands, i, lastSeenMove);
      }
      assert cands[..|cands|] == cands;
    }

    /** init_move_cache: the empty slots have been sorted to the low end. */
    method InitMoveCache()
      requires savedMoves.Length == NUM_SAVED_ENGINE_MOVES
      modifies this`nInMoveCache, this`bottom, this`curCacheIndex
      ensures bottom + nInMoveCache == NUM_SAVED_ENGINE_MOVES == curCacheIndex
      ensures forall i :: 0 <= i < bottom ==> savedMoves[i].score == 0
      ensures bottom < NUM_SAVED_ENGINE_MOVES ==> savedMoves[bottom].score > 0
    {
      var n := NUM_SAVED_ENGINE_MOVES;
      var ii := 0;
      while ii < NUM_SAVED_ENGINE_MOVES
        invariant 0 <= ii <= NUM_SAVED_ENGINE_MOVES && n == NUM_SAVED_ENGINE_MOVES - ii
        invariant forall i :: 0 <= i < ii ==> savedMoves[i].score == 0
      {
        if savedMoves[ii].score != 0 {
          break;
        }
        n := n - 1;
        ii := ii + 1;
      }
      nInMoveCache := n;
      bottom := NUM_SAVED_ENGINE_MOVES - n;
      curCacheIndex := NUM_SAVED_ENGINE_MOVES;
    }

    /** Search, sort and count: the cache is filled anew. */
    method NextPage(cands: seq<PossibleMove>)
      requires savedMoves.Length == NUM_SAVED_ENGINE_MOVES
      modifies this`nInMoveCache, this`bottom, this`curCacheIndex, savedMoves
      ensures bottom + nInMoveCache == NUM_SAVED_ENGINE_MOVES == curCacheIndex
      ensures PageOk(savedMoves[..], bottom, Below(cands, lastSeenMove))
      ensures nInMoveCache == 0 ==> Below(cands, lastSeenMove) == multiset{}
    {
      hide CmpMoves, Best, InUse, Below, PageOk, Sorted;
      Search(cands);
      SortMoves();
      InitMoveCache();
      PageReady(savedMoves[..], bottom, Below(cands, lastSeenMove));
    }

    /** What a forward call of engine_findMove does on an unchanged position with these candidates:
        search if the cache has been walked through, then answer from the cache. */
    method FindMove(cands: seq<PossibleMove>) returns (move: Option<PossibleMove>)
      requires Valid(cands) && forall i :: 0 <= i < |cands| ==> cands[i].score < TOP_MOVE.score
      modifies this, savedMoves
      ensures Valid(cands) && prev == move
      ensures NextAfter(cands, old(prev), move)
      ensures NoDups(cands) && move.Some? ==> move != old(prev)
      ensures move.Some? && move == old(prev) ==> curCacheIndex - bottom < old(curCacheIndex - bottom)
      ensures move.Some? ==> bottom <= curCacheIndex
    {
      hide CmpMoves, Best, InUse, Below, PageOk, NextAfter, NoDups;
      if MoveCacheEmpty() {
        assert old(prev).Some? ==> old(curCacheIndex) == old(bottom);
        SetSearchLimits(cands);
        NextPage(cands);
        if nInMoveCache == 0 {
          move := None;
          NoneLeft(cands, lastSeenMove, old(prev));
        } else {
          curCacheIndex := curCacheIndex - 1;
          move := Some(savedMoves[curCacheIndex]);
          TopOfPage(cands, savedMoves[..], bottom, lastSeenMove, old(prev));
          TopIsBelow(cands, savedMoves[..], bottom, lastSeenMove);
        }
      } else {
        curCacheIndex := curCacheIndex - 1;
        move := Some(savedMoves[curCacheIndex]);
        NextInPage(cands, savedMoves[..], bottom, curCacheIndex, lastSeenMove);
        if NoDups(cands) {
          PageDistinct(cands, savedMoves[..], bottom, curCacheIndex, lastSeenMove);
        }
      }
      prev := move;
    }

    /** engine_reset, for a search from the highest move down. */
    method EngineReset(ghost cands: seq<PossibleMove>)
      requires savedMoves.Length == NUM_SAVED_ENGINE_MOVES
      modifies this, savedMoves
      ensures Valid(cands) && MoveCacheEmpty() && prev == None && lastSeenMove == TOP_MOVE
      ensures forall i :: 0 <= i < NUM_SAVED_ENGINE_MOVES ==> savedMoves[i] == EMPTY_MOVE
    {
      for i := 0 to savedMoves.Length
        invariant forall j :: 0 <= j < i ==> savedMoves[j] == EMPTY_MOVE
      {
        savedMoves[i] := EMPTY_MOVE;
      }
      lastSeenMove, nInMoveCache, bottom, curCacheIndex, prev := TOP_MOVE, 0, 0, 0, None;
    }

    /** engine_findMove on an unchanged position: when nothing is found, it starts over once. */
    method EngineFindMove(cands: seq<PossibleMove>) returns (move: Option<PossibleMove>, isRetry: bool)
      requires Valid(cands) && forall i :: 0 <= i < |cands| ==> cands[i].score < TOP_MOVE.score
      modifies this, savedMoves
      ensures Valid(cands) && prev == move
      ensures !isRetry ==> move.Some? && NextAfter(cands, old(prev), move) && (NoDups(cands) ==> move != old(prev))
      ensures isRetry ==> NextAfter(cands, old(prev), None) && NextAfter(cands, None, move)
      ensures !isRetry && move == old(prev) ==> curCacheIndex - bottom < old(curCacheIndex - bottom)
      ensures move.Some? ==> bottom <= curCacheIndex
    {
      hide CmpMoves, NextAfter, Below, PageOk, NoDups;
      isRetry := false;
      move := FindMove(cands);
      if move.None? {
        EngineReset(cands);
        isRetry := true;
        move := FindMove(cands);
      }
    }

    /** Forward calls until the search starts over: every positive-score candidate is answered, from
        the highest down, and then the highest again. */
    method StepThrough(cands: seq<PossibleMove>) returns (answers: seq<PossibleMove>)
      requires Valid(cands) && prev == None && forall i :: 0 <= i < |cands| ==> cands[i].score < TOP_MOVE.score
      modifies this, savedMoves
      ensures forall i, j :: 0 <= i < j < |answers| ==> CmpMoves(answers[i], answers[j]) >= 0
      ensures BestFirst(answers)
      ensures forall m :: m in answers <==> m in cands && m.score > 0
      ensures NoDups(cands) ==> NoDups(answers)
      ensures Valid(cands) && prev == if answers == [] then None else Some(answers[0])
    {
      hide CmpMoves, Below, PageOk, NoDups, BestFirst;
      ShortNoDups<PossibleMove>([]);
      answers := [];
      var move, isRetry := EngineFindMove(cands);
      while !isRetry
        invariant Valid(cands) && prev == move && (move.Some? ==> bottom <= curCacheIndex)
        invariant !isRetry ==> move.Some? && NextAfter(cands, LastOf(answers), move)
        invariant isRetry ==> NextAfter(cands, LastOf(answers), None) && NextAfter(cands, None, move)
        invariant Descending(answers) && Answered(cands, answers)
        invariant NoDups(cands) ==> NoDups(answers) && (!isRetry ==> move != LastOf(answers))
        decreases !isRetry, |Below(cands, if move.Some? then move.value else EMPTY_MOVE)|,
                  if move.Some? then 1 + curCacheIndex - bottom else 0
      {
        ghost var before := move.value;
        AnswerMore(cands, answers, before);
        if NoDups(cands) {
          AnswerNew(cands, answers, before);
        }
        answers := answers + [move.value];
        move, isRetry := EngineFindMove(cands);
        if !isRetry {
          BelowShrinks(cands, before, move);
        }
      }
      StartsOver(cands, answers, move);
      DescendingIsBestFirst(answers);
    }
  }

  ghost function LastOf(answers: seq<PossibleMove>): Option<PossibleMove> {
    if answers == [] then None else Some(answers[|answers| - 1])
  }

  ghost predicate Descending(answers: seq<PossibleMove>) {
    forall i, j :: 0 <= i < j < |answers| ==> CmpMoves(answers[i], answers[j]) >= 0
  }

  /** The answers are candidates, and no candidate above the last of them is missing. */
  ghost predicate Answered(cands: seq<PossibleMove>, answers: seq<PossibleMove>) {
    && (forall m :: m in answers ==> m in cands && m.score > 0)
    && (answers != [] ==> forall m :: m in cands && m.score > 0 && CmpMoves(m, answers[|answers| - 1]) >= 0 ==> m in answers)
  }

  lemma AnswerMore(cands: seq<PossibleMove>, answers: seq<PossibleMove>, move: PossibleMove)
    requires NextAfter(cands, LastOf(answers), Some(move)) && Descending(answers) && Answered(cands, answers)
    ensures Descending(answers + [move]) && Answered(cands, answers + [move])
  {
    hide CmpMoves;
    var more := answers + [move];
    forall i, j | 0 <= i < j < |more|
      ensures CmpMoves(more[i], more[j]) >= 0
    {
      if j == |answers| {
        CmpOrder(move, answers[|answers| - 1], answers[i]);
        CmpOrder(answers[|answers| - 1], answers[i], move);
        CmpOrder(answers[i], move, move);
      }
    }
    forall m | m in cands && m.score > 0 && CmpMoves(m, move) >= 0
      ensures m in more
    {
      CmpOrder(m, move, move);
    }
  }

  lemma AnswerNew(cands: seq<PossibleMove>, answers: seq<PossibleMove>, move: PossibleMove)
    requires NextAfter(cands, LastOf(answers), Some(move)) && Descending(answers) && LastOf(answers) != Some(move) && NoDups(answers)
    ensures NoDups(answers + [move])
  {
    hide CmpMoves, NoDups;
    forall a | a in answers
      ensures a !in [move]
    {
      var i :| 0 <= i < |answers| && answers[i] == a;
      var last := answers[|answers| - 1];
      CmpOrder(last, last, last);
      assert i < |answers| - 1 ==> CmpMoves(answers[i], answers[|answers| - 1]) >= 0;
      CmpOrder(move, last, a);
      CmpOrder(last, a, a);
      CmpOrder(move, last, last);
      CmpOrder(a, a, a);
    }
    ShortNoDups([move]);
    NoDupsConcat(answers, [move]);
  }

  lemma {:induction false} BelowCount(cands: seq<PossibleMove>, limit: PossibleMove, m: PossibleMove)
    ensures Below(cands, limit)[m] <= multiset(cands)[m]
  {
    hide CmpMoves;
    if cands != [] {
      var rest := cands[..|cands| - 1];
      BelowCount(rest, limit, m);
      assert cands == rest + [cands[|cands| - 1]];
    }
  }

  lemma {:induction false} OnceCounted(s: seq<PossibleMove>, m: PossibleMove)
    requires NoDups(s)
    ensures multiset(s)[m] <= 1
  {
    if s != [] {
      var rest := s[1..];
      assert s == [s[0]] + rest;
      OnceCounted(rest, m);
      if m == s[0] {
        assert m !in rest;
      }
    }
  }

  /** Candidates that are all different fill a page with moves that are. */
  lemma PageDistinct(cands: seq<PossibleMove>, s: seq<PossibleMove>, bottom: nat, k: nat, limit: PossibleMove)
    requires PageOk(s, bottom, Below(cands, limit)) && bottom <= k < |s| - 1 && NoDups(cands)
    ensures s[k] != s[k + 1]
  {
    hide CmpMoves, InUse, Below, NoDups;
    BelowCount(cands, limit, s[k]);
    OnceCounted(cands, s[k]);
    if s[k] == s[k + 1] {
      TwoInUse(s, k);
    }
  }

  lemma TwoInUse(s: seq<PossibleMove>, k: nat)
    requires k + 1 < |s| && s[k] == s[k + 1] && s[k].score > 0
    ensures InUse(s)[s[k]] >= 2
  {
    hide InUse;
    InUseAround(s, k);
    InUseHas(s[k + 1..], s[k]);
    assert s[k + 1..][0] == s[k];
  }

  /** After the last answer the first comes again. */
  lemma StartsOver(cands: seq<PossibleMove>, answers: seq<PossibleMove>, move: Option<PossibleMove>)
    requires NextAfter(cands, LastOf(answers), None) && NextAfter(cands, None, move)
    requires Descending(answers) && Answered(cands, answers)
    ensures move == if answers == [] then None else Some(answers[0])
  {
    hide CmpMoves;
    if answers != [] {
      assert answers[0] in answers;
    }
    if move.Some? {
      var i :| 0 <= i < |answers| && answers[i] == move.value;
      CmpOrder(answers[0], move.value, move.value);
      assert i > 0 ==> CmpMoves(answers[0], answers[i]) >= 0;
      CmpOrder(move.value, move.value, move.value);
    }
  }

  lemma {:induction false} BelowMonotone(cands: seq<PossibleMove>, high: PossibleMove, low: PossibleMove)
    requires CmpMoves(low, high) <= 0
    ensures Below(cands, low) <= Below(cands, high)
  {
    hide CmpMoves;
    if cands != [] {
      BelowMonotone(cands[..|cands| - 1], high, low);
      CmpOrder(cands[|cands| - 1], low, high);
    }
  }

  lemma BelowShrinks(cands: seq<PossibleMove>, before: PossibleMove, move: Option<PossibleMove>)
    requires move.Some? && NextAfter(cands, Some(before), move) && before in cands && before.score > 0
    ensures move.value != before ==> |Below(cands, move.value)| < |Below(cands, before)|
  {
    hide CmpMoves;
    var low := move.value;
    BelowMonotone(cands, before, low);
    assert Below(cands, before) == Below(cands, low) + (Below(cands, before) - Below(cands, low));
    CmpOrder(low, before, before);
    CmpOrder(low, low, low);
    BelowHas(cands, before, low);
    BelowHas(cands, low, low);
  }

  /** What a new page starts with lies strictly below the old page. */
  lemma TopIsBelow(cands: seq<PossibleMove>, s: seq<PossibleMove>, bottom: nat, limit: PossibleMove)
    requires PageOk(s, bottom, Below(cands, limit)) && bottom < |s|
    ensures s[|s| - 1] != limit
  {
    hide CmpMoves, InUse, Below;
    InUseHas(s, s[|s| - 1]);
    BelowHas(cands, limit, s[|s| - 1]);
    CmpOrder(limit, limit, limit);
  }

  /** The slots from `bottom` are in order and hold the best of `all`; the rest are empty. */
  ghost predicate PageOk(s: seq<PossibleMove>, bottom: nat, all: multiset<PossibleMove>) {
    && |s| == NUM_SAVED_ENGINE_MOVES && bottom <= |s| && Sorted(s)
    && (forall i :: 0 <= i < bottom ==> s[i].score == 0)
    && (forall i :: bottom <= i < |s| ==> s[i].score > 0)
    && Best(InUse(s), all, NUM_SAVED_ENGINE_MOVES)
  }

  /** `move` is a candidate not above `prev` (the last answer, if any), and no candidate lies
      strictly between the two; there is none only if no candidate lies below `prev`. */
  ghost predicate NextAfter(cands: seq<PossibleMove>, prev: Option<PossibleMove>, move: Option<PossibleMove>) {
    && (move.Some? ==> move.value in cands && move.value.score > 0)
    && (move.Some? && prev.Some? ==> CmpMoves(move.value, prev.value) <= 0)
    && forall m :: m in cands && m.score > 0 && (prev.Some? ==> CmpMoves(m, prev.value) < 0) ==>
         move.Some? && CmpMoves(m, move.value) <= 0
  }

  lemma {:induction false} NoneInUse(s: seq<PossibleMove>)
    requires forall i :: 0 <= i < |s| ==> s[i] == EMPTY_MOVE
    ensures InUse(s) == multiset{}
    ensures Best(InUse(s), Below([], EMPTY_MOVE), NUM_SAVED_ENGINE_MOVES)
  {
    if s != [] {
      NoneInUse(s[1..]);
    }
  }

  lemma PageReady(s: seq<PossibleMove>, bottom: nat, all: multiset<PossibleMove>)
    requires |s| == NUM_SAVED_ENGINE_MOVES && bottom <= |s| && Sorted(s) && Best(InUse(s), all, NUM_SAVED_ENGINE_MOVES)
    requires forall i :: 0 <= i < bottom ==> s[i].score == 0
    requires bottom < |s| ==> s[bottom].score > 0
    ensures PageOk(s, bottom, all)
    ensures bottom == |s| ==> all == multiset{}
  {
    forall i | bottom <= i < |s|
      ensures s[i].score > 0
    {
      assert bottom < i ==> CmpMoves(s[bottom], s[i]) <= 0;
    }
    if bottom == |s| {
      forall m: PossibleMove
        ensures m !in InUse(s)
      {
        InUseHas(s, m);
      }
      assert InUse(s) == multiset{};
      assert |all| == 0;
    }
  }

  lemma NoneLeft(cands: seq<PossibleMove>, limit: PossibleMove, prev: Option<PossibleMove>)
    requires Below(cands, limit) == multiset{}
    requires limit == if prev.Some? then prev.value else TOP_MOVE
    requires forall i :: 0 <= i < |cands| ==> cands[i].score < TOP_MOVE.score
    ensures NextAfter(cands, prev, None)
  {
    forall m | m in cands && m.score > 0 && (prev.Some? ==> CmpMoves(m, prev.value) < 0)
      ensures false
    {
      BelowHas(cands, limit, m);
    }
  }

  lemma TopOfPage(cands: seq<PossibleMove>, s: seq<PossibleMove>, bottom: nat, limit: PossibleMove, prev: Option<PossibleMove>)
    requires PageOk(s, bottom, Below(cands, limit)) && bottom < |s|
    requires limit == if prev.Some? then prev.value else TOP_MOVE
    requires forall i :: 0 <= i < |cands| ==> cands[i].score < TOP_MOVE.score
    ensures NextAfter(cands, prev, Some(s[|s| - 1]))
  {
    hide InUse, Below;
    var top := s[|s| - 1];
    InUseHas(s, top);
    BelowHas(cands, limit, top);
    forall m | m in cands && m.score > 0 && (prev.Some? ==> CmpMoves(m, prev.value) < 0)
      ensures CmpMoves(m, top) <= 0
    {
      BelowHas(cands, limit, m);
      PageRank(s, bottom, Below(cands, limit), m, |s| - 1);
    }
  }

  /** A candidate of the page's range is on the page or not above anything on it. */
  lemma PageRank(s: seq<PossibleMove>, bottom: nat, all: multiset<PossibleMove>, m: PossibleMove, k: nat)
    requires PageOk(s, bottom, all) && m in all && bottom <= k < |s|
    ensures CmpMoves(m, s[k]) <= 0 || exists i :: k < i < |s| && s[i] == m
  {
    hide CmpMoves, InUse;
    InUseHas(s, s[k]);
    InUseHas(s, m);
    if m in InUse(s) {
      var i :| 0 <= i < |s| && s[i] == m;
      CmpOrder(m, m, m);
    } else {
      assert m in all - InUse(s);
    }
  }

  lemma NextInPage(cands: seq<PossibleMove>, s: seq<PossibleMove>, bottom: nat, k: nat, limit: PossibleMove)
    requires PageOk(s, bottom, Below(cands, limit)) && bottom <= k < |s| - 1
    ensures NextAfter(cands, Some(s[k + 1]), Some(s[k]))
  {
    hide InUse, Below;
    InUseHas(s, s[k]);
    InUseHas(s, s[k + 1]);
    BelowHas(cands, limit, s[k]);
    BelowHas(cands, limit, s[k + 1]);
    forall m | m in cands && m.score > 0 && CmpMoves(m, s[k + 1]) < 0
      ensures CmpMoves(m, s[k]) <= 0
    {
      CmpOrder(m, s[k + 1], limit);
      BelowHas(cands, limit, m);
      PageRank(s, bottom, Below(cands, limit), m, k);
      if i :| k < i < |s| && s[i] == m {
        CmpOrder(m, s[k + 1], s[i]);
        CmpOrder(m, m, m);
        CmpOrder(s[k + 1], s[i], m);
      }
    }
  }

  /** From `q` on every slot is at least as high as all slots before it. */
  ghost predicate Settled(s: seq<PossibleMove>, q: nat) {
    q <= |s| && forall i, j :: q <= i < |s| && 0 <= j < i ==> CmpMoves(s[j], s[i]) <= 0
  }

  /** In mid-pass at `ii`: the highest of the slots so far has been carried along. */
  ghost predicate Carried(s: seq<PossibleMove>, q: nat, ii: nat) {
    && Settled(s, q)
    && (ii < q && ii < |s| ==> forall j :: 0 <= j < ii ==> CmpMoves(s[j], s[ii]) <= 0)
    && (1 <= q <= ii + 1 ==> forall j :: 0 <= j < q - 1 ==> CmpMoves(s[j], s[q - 1]) <= 0)
  }

  ghost predicate NeighboursOk(s: seq<PossibleMove>, n: nat) {
    n < |s| && forall j :: 0 <= j < n ==> CmpMoves(s[j], s[j + 1]) <= 0
  }

  lemma CarrySwap(s: seq<PossibleMove>, q: nat, ii: nat)
    requires Carried(s, q, ii) && ii + 1 < |s| && CmpMoves(s[ii], s[ii + 1]) > 0
    ensures Carried(s[ii := s[ii + 1]][ii + 1 := s[ii]], q, ii + 1) && q >= 1
  {
    hide CmpMoves;
    var t := s[ii := s[ii + 1]][ii + 1 := s[ii]];
    CmpOrder(s[ii + 1], s[ii], s[ii]);
    assert ii + 1 < q;
    forall i, j | q <= i < |t| && 0 <= j < i
      ensures CmpMoves(t[j], t[i]) <= 0
    {
      assert t[i] == s[i];
    }
    forall j | 0 <= j < ii + 1
      ensures CmpMoves(t[j], t[ii + 1]) <= 0
    {
    }
  }

  lemma CarryKeep(s: seq<PossibleMove>, q: nat, ii: nat)
    requires Carried(s, q, ii) && ii + 1 < |s| && CmpMoves(s[ii], s[ii + 1]) <= 0
    ensures Carried(s, q, ii + 1)
  {
    hide CmpMoves;
    if ii + 1 < q {
      forall j | 0 <= j < ii + 1
        ensures CmpMoves(s[j], s[ii + 1]) <= 0
      {
        CmpOrder(s[j], s[ii], s[ii + 1]);
      }
    }
  }

  lemma {:induction false} NeighboursSort(s: seq<PossibleMove>)
    requires s != [] && NeighboursOk(s, |s| - 1)
    ensures Sorted(s)
  {
    hide CmpMoves;
    forall i, j | 0 <= i < j < |s|
      ensures CmpMoves(s[i], s[j]) <= 0
    {
      NeighboursReach(s, i, j);
    }
  }

  lemma {:induction false} NeighboursReach(s: seq<PossibleMove>, i: nat, j: nat)
    requires i < j < |s| && NeighboursOk(s, |s| - 1)
    ensures CmpMoves(s[i], s[j]) <= 0
    decreases j - i
  {
    hide CmpMoves;
    assert CmpMoves(s[j - 1], s[j - 1 + 1]) <= 0;
    if i < j - 1 {
      NeighboursReach(s, i, j - 1);
      CmpOrder(s[i], s[j - 1], s[j]);
    }
  }

  lemma LowerStill(s: seq<PossibleMove>, found: nat, ii: nat)
    requires found < ii < |s| && CmpMoves(s[found], s[ii]) > 0
    requires forall i :: 0 <= i < ii ==> CmpMoves(s[found], s[i]) <= 0
    ensures forall i :: 0 <= i <= ii ==> CmpMoves(s[ii], s[i]) <= 0
  {
    hide CmpMoves;
    forall i | 0 <= i <= ii
      ensures CmpMoves(s[ii], s[i]) <= 0
    {
      CmpOrder(s[ii], s[ii], s[ii]);
      CmpOrder(s[ii], s[found], s[i]);
      CmpOrder(s[found], s[ii], s[i]);
    }
  }

  lemma EmptyFills(s: seq<PossibleMove>, all: multiset<PossibleMove>, i: nat, m: PossibleMove)
    requires |s| == NUM_SAVED_ENGINE_MOVES && i < |s| && s[i].score == 0 && Best(InUse(s), all, |s|)
    ensures Best(InUse(s[i := m]), if m.score > 0 then all + multiset{m} else all, |s|)
  {
    InUseUpdate(s, i, m);
    InUseSize(s);
    if m.score > 0 {
      BestRoom(InUse(s), all, |s|, m);
      assert InUse(s[i := m]) == InUse(s) + multiset{m};
    } else {
      assert InUse(s[i := m]) == InUse(s);
    }
  }

  lemma LowestDrops(s: seq<PossibleMove>, all: multiset<PossibleMove>, low: nat, m: PossibleMove)
    requires |s| == NUM_SAVED_ENGINE_MOVES && low < |s| && Best(InUse(s), all, |s|)
    requires forall i :: 0 <= i < |s| ==> s[i].score > 0 && CmpMoves(s[low], s[i]) <= 0
    requires CmpMoves(m, s[low]) <= 0
    ensures Best(InUse(s), if m.score > 0 then all + multiset{m} else all, |s|)
  {
    hide CmpMoves;
    InUseSize(s);
    InUseHas(s, s[low]);
    forall a | a in InUse(s)
      ensures CmpMoves(s[low], a) <= 0
    {
      InUseHas(s, a);
    }
    if m.score > 0 {
      BestDrop(InUse(s), all, |s|, m, s[low]);
    }
  }

  lemma LowestReplaced(s: seq<PossibleMove>, all: multiset<PossibleMove>, low: nat, m: PossibleMove)
    requires |s| == NUM_SAVED_ENGINE_MOVES && low < |s| && Best(InUse(s), all, |s|)
    requires forall i :: 0 <= i < |s| ==> s[i].score > 0 && CmpMoves(s[low], s[i]) <= 0
    requires CmpMoves(m, s[low]) > 0
    ensures Best(InUse(s[low := m]), if m.score > 0 then all + multiset{m} else all, |s|)
  {
    assert m.score > 0;
    hide CmpMoves, InUse, Best;
    AllAtLeast(s, s[low]);
    BestReplace(InUse(s), all, |s|, m, s[low]);
    InUseUpdate(s, low, m);
  }

  /** What is in use, if every slot is and none is below `low`. */
  lemma AllAtLeast(s: seq<PossibleMove>, low: PossibleMove)
    requires low in s && forall i :: 0 <= i < |s| ==> s[i].score > 0 && CmpMoves(low, s[i]) <= 0
    ensures |InUse(s)| == |s| && low in InUse(s) && forall a :: a in InUse(s) ==> CmpMoves(low, a) <= 0
  {
    hide CmpMoves, InUse;
    InUseSize(s);
    InUseHas(s, low);
    forall a | a in InUse(s)
      ensures CmpMoves(low, a) <= 0
    {
      InUseHas(s, a);
    }
  }
}
