/** The byte queue (bufqueue.c): messages of any length in one buffer, each behind its length and
    padded to an even size. */
module BufQueues {
  type Byte = b: nat | b < 0x100

  function RoundUp(num: nat): (r: nat)
    ensures num <= r <= num + 1 && r % 2 == 0
  {
    (num + 1) / 2 * 2
  }

  /** The room a message takes. */
  function Size(len: nat): (r: nat)
    ensures len + 2 <= r <= len + 3
  {
    RoundUp(len + 2)
  }

  function LenBytes(len: nat): (bs: seq<Byte>)
    ensures |bs| == 2
  {
    [len % 0x100, len / 0x100 % 0x100]
  }

  function LenOf(lo: Byte, hi: Byte): nat {
    lo + 0x100 * hi
  }

  lemma LenRound(len: nat)
    requires len < 0x1_0000
    ensures LenOf(LenBytes(len)[0], LenBytes(len)[1]) == len
  {}

  /** The bytes hold the messages one behind the other; what a padding byte holds does not matter. */
  ghost predicate Stored(s: seq<Byte>, msgs: seq<seq<Byte>>)
    decreases |msgs|
  {
    if msgs == [] then s == []
    else
      var m := msgs[0];
      && |m| < 0x1_0000 && Size(|m|) <= |s| && s[..2] == LenBytes(|m|) && s[2..2 + |m|] == m
      && Stored(s[Size(|m|)..], msgs[1..])
  }

  /** The oldest message, and the others. */
  lemma StoredFirst(s: seq<Byte>, msgs: seq<seq<Byte>>)
    requires Stored(s, msgs)
    ensures s == [] <==> msgs == []
    ensures msgs != [] ==>
              var m := msgs[0];
              && |m| < 0x1_0000 && Size(|m|) <= |s| && LenOf(s[0], s[1]) == |m| && s[2..2 + |m|] == m
              && Stored(s[Size(|m|)..], msgs[1..])
  {
    if msgs != [] {
      LenRound(|msgs[0]|);
      assert s[0] == s[..2][0] && s[1] == s[..2][1];
    }
  }

  lemma {:induction false} StoredMore(s: seq<Byte>, msgs: seq<seq<Byte>>, t: seq<Byte>, m: seq<Byte>)
    requires Stored(s, msgs) && Stored(t, [m])
    ensures Stored(s + t, msgs + [m])
    decreases |msgs|
  {
    if msgs == [] {
      assert s + t == t && msgs + [m] == [m];
    } else {
      var n := Size(|msgs[0]|);
      StoredMore(s[n..], msgs[1..], t, m);
      assert (msgs + [m])[1..] == msgs[1..] + [m];
      PartsOfBoth(s, t, |msgs[0]|, n);
    }
  }

  lemma PartsOfBoth(s: seq<Byte>, t: seq<Byte>, len: nat, n: nat)
    requires len + 2 <= n <= |s|
    ensures (s + t)[n..] == s[n..] + t && (s + t)[..2] == s[..2] && (s + t)[2..2 + len] == s[2..2 + len]
  {}

  class BufQueue {
    const base: array<Byte>
    var head: nat
    var tail: nat
    /** The messages queued, oldest first. */
    ghost var msgs: seq<seq<Byte>>

    ghost predicate Valid()
      reads this, base
    {
      head <= tail <= base.Length && Stored(base[head..tail], msgs)
    }

    /** bqInit. */
    constructor (buf: array<Byte>)
      ensures Valid() && base == buf && msgs == []
    {
      base, head, tail, msgs := buf, 0, 0, [];
    }

    predicate HaveSpace(len: nat)
      reads this
    {
      tail + len + 2 < base.Length
    }

    method ShiftDown()
      requires Valid()
      modifies `head, `tail, base
      ensures Valid() && head == 0 && tail == old(tail - head)
    {
      if head > 0 {
        ghost var was := base[head..tail];
        var n, h := tail - head, head;
        forall k | 0 <= k < n {
          base[k] := base[h + k];
        }
        tail := n;
        head := 0;
        assert base[head..tail] == was;
      }
    }

    /** bqAdd: it works exactly if the bytes in use leave room, wherever they lie. */
    method Add(buf: seq<Byte>) returns (success: bool)
      requires Valid() && |buf| < 0x1_0000
      modifies this, base
      ensures Valid() && success == (old(tail - head) + |buf| + 2 < base.Length)
      ensures msgs == if success then old(msgs) + [buf] else old(msgs)
    {
      hide Stored, LenBytes, Size;
      if !HaveSpace(|buf|) {
        ShiftDown();
      }
      success := HaveSpace(|buf|);
      if success {
        ghost var all, was := base[..], base[head..tail];
        var at := tail;
        PutAt(at, buf);
        tail := at + Size(|buf|);
        StoredMore(was, msgs, base[at..tail], buf);
        FrontKept(all, base[..], head, at, tail);
        msgs := msgs + [buf];
      }
    }

    /** The length, and then the message. */
    method PutAt(at: nat, buf: seq<Byte>)
      requires at + Size(|buf|) <= base.Length && |buf| < 0x1_0000
      modifies base
      ensures Stored(base[at..at + Size(|buf|)], [buf]) && base[..at] == old(base[..at])
    {
      hide Stored, LenBytes, Size;
      var len := LenBytes(|buf|);
      base[at], base[at + 1] := len[0], len[1];
      forall k | 0 <= k < |buf| {
        base[at + 2 + k] := buf[k];
      }
      PlacedIsStored(base[..], at, buf);
    }

    /** bqGet: the oldest message. */
    method Get() returns (have: bool, buf: seq<Byte>)
      requires Valid()
      ensures have == (msgs != []) && (have ==> buf == msgs[0])
    {
      hide Stored, Size, LenOf;
      StoredFirst(base[head..tail], msgs);
      have := head < tail;
      buf := [];
      if have {
        var len := LenOf(base[head], base[head + 1]);
        buf := base[head + 2..head + 2 + len];
        assert buf == base[head..tail][2..2 + len];
      }
    }

    /** bqRemoveOne. */
    method RemoveOne()
      requires Valid() && msgs != []
      modifies this
      ensures Valid() && msgs == old(msgs)[1..]
    {
      hide Stored, Size, LenOf;
      StoredFirst(base[head..tail], msgs);
      var len := LenOf(base[head], base[head + 1]);
      assert base[head..tail][Size(len)..] == base[head + Size(len)..tail];
      head := head + Size(len);
      msgs := msgs[1..];
      if head == tail {
        StoredFirst(base[head..tail], msgs);
        head, tail := 0, 0;
      }
    }

    /** bqRemoveAll. */
    method RemoveAll()
      modifies this
      ensures Valid() && msgs == []
    {
      head, tail, msgs := 0, 0, [];
    }
  }

  lemma PlacedIsStored(all: seq<Byte>, at: nat, m: seq<Byte>)
    requires |m| < 0x1_0000 && at + Size(|m|) <= |all|
    requires all[at] == LenBytes(|m|)[0] && all[at + 1] == LenBytes(|m|)[1]
    requires forall k :: 0 <= k < |m| ==> all[at + 2 + k] == m[k]
    ensures Stored(all[at..at + Size(|m|)], [m])
  {
    hide LenBytes, Stored;
    var t := all[at..at + Size(|m|)];
    forall k | 0 <= k < |m|
      ensures t[2 + k] == m[k]
    {
      assert t[2 + k] == all[at + (2 + k)] == all[at + 2 + k];
    }
    assert t[0] == all[at] && t[1] == all[at + 1];
    OneStored(t, m);
  }

  lemma FrontKept(was: seq<Byte>, now: seq<Byte>, head: nat, at: nat, tail: nat)
    requires head <= at <= tail <= |now| == |was| && now[..at] == was[..at]
    ensures now[head..tail] == was[head..at] + now[at..tail]
  {
    assert now[head..at] == now[..at][head..];
    assert was[head..at] == was[..at][head..];
  }

  lemma OneStored(t: seq<Byte>, m: seq<Byte>)
    requires |m| < 0x1_0000 && |t| == Size(|m|) && t[..2] == LenBytes(|m|) && t[2..2 + |m|] == m
    ensures Stored(t, [m])
  {
    assert t[Size(|m|)..] == [] && [m][1..] == [];
  }

  /** First in, first out: messages that fit together come out as they went in. */
  method FirstInFirstOut(bq: BufQueue, ins: seq<seq<Byte>>) returns (outs: seq<seq<Byte>>)
    requires bq.Valid() && bq.msgs == [] && bq.head == bq.tail
    requires forall k :: 0 <= k < |ins| ==> |ins[k]| < 0x1_0000
    requires Needed(ins) < bq.base.Length
    modifies bq, bq.base
    ensures bq.Valid() && bq.msgs == [] && outs == ins
  {
    hide Stored, Size, Needed;
    NeededNone();
    var i := 0;
    while i < |ins|
      invariant i <= |ins| && bq.Valid() && bq.msgs == ins[..i] && bq.tail - bq.head == Needed(ins[..i])
    {
      NeededMore(ins, i);
      var ok := bq.Add(ins[i]);
      UsedIs(bq.base[bq.head..bq.tail], bq.msgs);
      assert ins[..i + 1] == ins[..i] + [ins[i]];
      i := i + 1;
    }
    assert ins[..i] == ins;
    outs := [];
    while |outs| < |ins|
      invariant |outs| <= |ins| && bq.Valid() && outs == ins[..|outs|] && bq.msgs == ins[|outs|..]
    {
      var have, buf := bq.Get();
      assert ins[..|outs| + 1] == ins[..|outs|] + [ins[|outs|]];
      bq.RemoveOne();
      outs := outs + [buf];
    }
    assert ins[..|outs|] == ins;
  }

  function Needed(ms: seq<seq<Byte>>): nat {
    if ms == [] then 0 else Needed(ms[..|ms| - 1]) + Size(|ms[|ms| - 1]|)
  }

  lemma NeededNone()
    ensures Needed([]) == 0
  {}

  lemma {:induction false} NeededMore(ms: seq<seq<Byte>>, i: nat)
    requires i < |ms|
    ensures Needed(ms[..i]) + Size(|ms[i]|) == Needed(ms[..i + 1]) <= Needed(ms)
    decreases |ms| - i
  {
    assert ms[..i + 1][..i] == ms[..i];
    if i + 1 < |ms| {
      NeededMore(ms, i + 1);
    } else {
      assert ms[..i + 1] == ms;
    }
  }

  lemma {:induction false} UsedIs(s: seq<Byte>, ms: seq<seq<Byte>>)
    requires Stored(s, ms)
    ensures |s| == Needed(ms)
    decreases |ms|
  {
    if ms != [] {
      UsedIs(s[Size(|ms[0]|)..], ms[1..]);
      NeededFirst(ms);
    }
  }

  lemma {:induction false} NeededFirst(ms: seq<seq<Byte>>)
    requires ms != []
    ensures Needed(ms) == Size(|ms[0]|) + Needed(ms[1..])
    decreases |ms|
  {
    var n := |ms| - 1;
    if n > 0 {
      NeededFirst(ms[..n]);
      assert ms[..n][1..] == ms[1..][..n - 1];
    }
  }
}
