/** The order of moves (cmpMoves) and what it means for a store to hold the best of them. */
module MoveOrder {
  /** `moveInfo` and `blankVals` as the bytes that memcmp compares. */
  datatype PossibleMove = PossibleMove(score: nat, nBlanks: nat, moveInfo: seq<nat>, blankVals: seq<nat>)

  /** memcmp; for arrays of one size, as here, the length never decides. */
  function MemCmp(a: seq<nat>, b: seq<nat>): int {
    if a == [] then (if b == [] then 0 else -1)
    else if b == [] then 1
    else if a[0] != b[0] then (if a[0] > b[0] then 1 else -1)
    else MemCmp(a[1..], b[1..])
  }

  function CmpMoves(m1: PossibleMove, m2: PossibleMove): int {
    if m1.score != m2.score then (if m1.score > m2.score then 1 else -1)
    else if m1.nBlanks != m2.nBlanks then (if m1.nBlanks > m2.nBlanks then -1 else 1)
    else
      var r := MemCmp(m1.moveInfo, m2.moveInfo);
      if r == 0 then MemCmp(m1.blankVals, m2.blankVals) else r
  }

  lemma {:induction false} MemCmpOrder(a: seq<nat>, b: seq<nat>, c: seq<nat>)
    ensures MemCmp(a, b) == -MemCmp(b, a)
    ensures MemCmp(a, b) == 0 <==> a == b
    ensures MemCmp(a, b) <= 0 && MemCmp(b, c) <= 0 ==> MemCmp(a, c) <= 0
    ensures MemCmp(a, b) < 0 && MemCmp(b, c) <= 0 ==> MemCmp(a, c) < 0
    ensures MemCmp(a, b) <= 0 && MemCmp(b, c) < 0 ==> MemCmp(a, c) < 0
  {
    if a != [] && b != [] {
      assert a == [a[0]] + a[1..] && b == [b[0]] + b[1..];
      MemCmpOrder(a[1..], b[1..], if c == [] then [] else c[1..]);
    }
  }

  /** cmpMoves is a total order that tells different moves apart. */
  lemma {:induction false} CmpOrder(a: PossibleMove, b: PossibleMove, c: PossibleMove)
    ensures CmpMoves(a, b) == -CmpMoves(b, a)
    ensures CmpMoves(a, b) == 0 <==> a == b
    ensures CmpMoves(a, b) <= 0 && CmpMoves(b, c) <= 0 ==> CmpMoves(a, c) <= 0
    ensures CmpMoves(a, b) < 0 && CmpMoves(b, c) <= 0 ==> CmpMoves(a, c) < 0
    ensures CmpMoves(a, b) <= 0 && CmpMoves(b, c) < 0 ==> CmpMoves(a, c) < 0
  {
    MemCmpOrder(a.moveInfo, b.moveInfo, c.moveInfo);
    MemCmpOrder(a.blankVals, b.blankVals, c.blankVals);
  }

  /** The first byte in which the two differ is higher in `a`, or `b` has no byte there. */
  ghost predicate BytesAbove(a: seq<nat>, b: seq<nat>) {
    exists k :: 0 <= k < |a| && k <= |b| && a[..k] == b[..k] && (k == |b| || a[k] > b[k])
  }

  /** The move a player is shown first: the one with more points; of those with as many, the one
      with fewer blanks; then the one with the higher bytes in its squares and tiles, and then in
      what its blanks stand for. */
  ghost predicate Preferred(a: PossibleMove, b: PossibleMove) {
    || a.score > b.score
    || (a.score == b.score && a.nBlanks < b.nBlanks)
    || (a.score == b.score && a.nBlanks == b.nBlanks && BytesAbove(a.moveInfo, b.moveInfo))
    || (a.score == b.score && a.nBlanks == b.nBlanks && a.moveInfo == b.moveInfo && BytesAbove(a.blankVals, b.blankVals))
  }

  lemma {:induction false} MemCmpIs(a: seq<nat>, b: seq<nat>)
    ensures MemCmp(a, b) > 0 <==> BytesAbove(a, b)
  {
    if a != [] && (b == [] || a[0] != b[0]) {
      assert a[..0] == b[..0];
    } else if a != [] {
      MemCmpIs(a[1..], b[1..]);
      AboveFirst(a, b);
      hide BytesAbove;
    }
  }

  lemma AboveFirst(a: seq<nat>, b: seq<nat>)
    requires a != [] && b != [] && a[0] == b[0]
    ensures BytesAbove(a, b) <==> BytesAbove(a[1..], b[1..])
  {
    if k :| 0 <= k < |a| && k <= |b| && a[..k] == b[..k] && (k == |b| || a[k] > b[k]) {
      assert a[1..][..k - 1] == a[..k][1..] == b[..k][1..] == b[1..][..k - 1];
    }
    if k :| 0 <= k < |a| - 1 && k <= |b| - 1 && a[1..][..k] == b[1..][..k] && (k == |b| - 1 || a[1..][k] > b[1..][k]) {
      assert a[..k + 1] == [a[0]] + a[1..][..k] && b[..k + 1] == [b[0]] + b[1..][..k];
    }
  }

  /** cmpMoves puts the preferred move above the other. */
  lemma {:induction false} CmpExact(a: PossibleMove, b: PossibleMove)
    ensures CmpMoves(a, b) > 0 <==> Preferred(a, b)
  {
    hide MemCmp, BytesAbove;
    MemCmpIs(a.moveInfo, b.moveInfo);
    MemCmpIs(a.blankVals, b.blankVals);
    MemCmpOrder(a.moveInfo, b.moveInfo, b.moveInfo);
  }

  /** No move comes before one that is preferred to it; so scores never rise, and at equal scores
      the number of blanks never falls. */
  ghost predicate BestFirst(ms: seq<PossibleMove>) {
    forall i, j :: 0 <= i < j < |ms| ==>
      && !Preferred(ms[j], ms[i])
      && ms[i].score >= ms[j].score && (ms[i].score == ms[j].score ==> ms[i].nBlanks <= ms[j].nBlanks)
  }

  lemma DescendingIsBestFirst(ms: seq<PossibleMove>)
    requires forall i, j :: 0 <= i < j < |ms| ==> CmpMoves(ms[i], ms[j]) >= 0
    ensures BestFirst(ms)
  {
    hide CmpMoves, Preferred;
    forall i, j | 0 <= i < j < |ms|
      ensures !Preferred(ms[j], ms[i])
    {
      CmpExact(ms[j], ms[i]);
      CmpOrder(ms[i], ms[j], ms[j]);
    }
    forall i, j | 0 <= i < j < |ms|
      ensures ms[i].score >= ms[j].score && (ms[i].score == ms[j].score ==> ms[i].nBlanks <= ms[j].nBlanks)
    {
      ScoresFirst(ms[i], ms[j]);
    }
  }

  lemma ScoresFirst(a: PossibleMove, b: PossibleMove)
    requires !Preferred(b, a)
    ensures a.score >= b.score && (a.score == b.score ==> a.nBlanks <= b.nBlanks)
  {}

  /** `kept` holds the best `n` of `all`: nothing left out beats anything kept. */
  ghost predicate Best(kept: multiset<PossibleMove>, all: multiset<PossibleMove>, n: nat) {
    && kept <= all
    && |kept| == (if |all| < n then |all| else n)
    && forall a, b :: a in kept && b in all - kept ==> CmpMoves(b, a) <= 0
  }

  lemma BestRoom(kept: multiset<PossibleMove>, all: multiset<PossibleMove>, n: nat, m: PossibleMove)
    requires Best(kept, all, n) && |kept| < n
    ensures Best(kept + multiset{m}, all + multiset{m}, n)
  {
    assert all == kept + (all - kept);
    assert |all - kept| == 0;
    assert kept == all;
  }

  lemma BestDrop(kept: multiset<PossibleMove>, all: multiset<PossibleMove>, n: nat, m: PossibleMove, low: PossibleMove)
    requires Best(kept, all, n) && |kept| == n && low in kept
    requires forall a :: a in kept ==> CmpMoves(low, a) <= 0
    requires CmpMoves(m, low) <= 0
    ensures Best(kept, all + multiset{m}, n)
  {
    forall a, b | a in kept && b in (all + multiset{m}) - kept
      ensures CmpMoves(b, a) <= 0
    {
      if b !in all - kept {
        assert b == m;
        CmpOrder(m, low, a);
      }
    }
  }

  /** What is not kept after the replacement. */
  lemma LeftOut(kept: multiset<PossibleMove>, all: multiset<PossibleMove>, m: PossibleMove, low: PossibleMove)
    requires kept <= all && low in kept
    ensures (all + multiset{m}) - (kept - multiset{low} + multiset{m}) == (all - kept) + multiset{low}
    ensures kept - multiset{low} + multiset{m} <= all + multiset{m} && kept == (kept - multiset{low}) + multiset{low}
  {}

  lemma BestReplace(kept: multiset<PossibleMove>, all: multiset<PossibleMove>, n: nat, m: PossibleMove, low: PossibleMove)
    requires Best(kept, all, n) && |kept| == n && low in kept
    requires forall a :: a in kept ==> CmpMoves(low, a) <= 0
    requires CmpMoves(m, low) > 0
    ensures Best(kept - multiset{low} + multiset{m}, all + multiset{m}, n)
  {
    var kept', all' := kept - multiset{low} + multiset{m}, all + multiset{m};
    LeftOut(kept, all, m, low);
    forall a, b | a in kept' && b in all' - kept'
      ensures CmpMoves(b, a) <= 0
    {
      CmpOrder(m, low, a);
      CmpOrder(b, low, m);
      CmpOrder(low, m, m);
      CmpOrder(b, low, a);
    }
  }
}
