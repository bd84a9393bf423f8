/** What every operation keeps of a device's queues, and what it changes of each record. */
module CommsQueue {
  import opened Wrappers
  import opened CommsState

  // ----- invariant --------------------------------------------------------------------------

  /** Established channels, told apart by the high bits of their numbers. */
  ghost predicate ChannelsOk(recs: seq<Rec>) {
    && (forall i :: 0 <= i < |recs| ==> Masked(recs[i].channelNo) != 0)
    && (forall i, j :: 0 <= i < j < |recs| ==> Masked(recs[i].channelNo) != Masked(recs[j].channelNo))
  }

  /** The numbered packets count up without a gap, from `lo + 1`. */
  ghost predicate RunFrom(n: seq<Elem>, lo: nat) {
    forall k :: 0 <= k < |n| ==> n[k].msgID == lo + 1 + k
  }

  /** The numbered packets of a queue are a contiguous ascending run ending at nextMsgID. */
  ghost predicate QueueRun(rec: Rec) {
    var n := NonAcks(rec.queue);
    |n| <= rec.nextMsgID && RunFrom(n, rec.nextMsgID - |n|)
  }

  ghost predicate OwnElems(rec: Rec) {
    forall e :: e in rec.queue ==> Masked(e.channelNo) == Masked(rec.channelNo)
  }

  ghost predicate StateOk(st: State) {
    && ChannelsOk(st.recs)
    && st.queueLen == QueueTotal(st.recs)
    && forall i :: 0 <= i < |st.recs| ==> QueueRun(st.recs[i]) && OwnElems(st.recs[i])
  }

  // ----- counting ---------------------------------------------------------------------------

  lemma {:induction false} TotalUpdate(recs: seq<Rec>, i: nat, rec: Rec)
    requires i < |recs|
    ensures QueueTotal(recs[i := rec]) == QueueTotal(recs) - |recs[i].queue| + |rec.queue|
  {
    if i > 0 {
      TotalUpdate(recs[1..], i - 1, rec);
      assert recs[i := rec][1..] == recs[1..][i - 1 := rec];
    } else {
      assert recs[i := rec][1..] == recs[1..];
    }
  }

  lemma {:induction false} NonAcksConcat(a: seq<Elem>, b: seq<Elem>)
    ensures NonAcks(a + b) == NonAcks(a) + NonAcks(b)
  {
    if a == [] {
      assert a + b == b;
    } else {
      NonAcksConcat(a[1..], b);
      assert (a + b)[0] == a[0] && (a + b)[1..] == a[1..] + b;
      Regroup(if a[0].msgID == 0 then [] else [a[0]], NonAcks(a[1..]), NonAcks(b));
    }
  }

  lemma Regroup(a: seq<Elem>, b: seq<Elem>, c: seq<Elem>)
    ensures a + (b + c) == (a + b) + c
  {}

  lemma NonAcksFirst(e: Elem, q: seq<Elem>)
    ensures NonAcks([e] + q) == if e.msgID == 0 then NonAcks(q) else [e] + NonAcks(q)
  {
    assert ([e] + q)[1..] == q;
  }

  lemma {:induction false} NonAcksHas(q: seq<Elem>, e: Elem)
    ensures e in NonAcks(q) <==> e in q && e.msgID != 0
  {
    if q != [] {
      NonAcksHas(q[1..], e);
      assert q == [q[0]] + q[1..];
    }
  }

  lemma {:induction false} NonAcksLast(q: seq<Elem>)
    requires q != [] && q[|q| - 1].msgID != 0
    ensures NonAcks(q) != [] && NonAcks(q)[|NonAcks(q)| - 1] == q[|q| - 1]
  {
    var e := q[|q| - 1];
    assert q == q[..|q| - 1] + [e];
    NonAcksConcat(q[..|q| - 1], [e]);
    assert [e][1..] == [];
  }

  /** With distinct channels the record found is the one meant. */
  lemma RecordForIs(recs: seq<Rec>, channelNo: nat, i: nat)
    requires ChannelsOk(recs) && i < |recs| && Masked(recs[i].channelNo) == Masked(channelNo)
    ensures RecordFor(recs, channelNo, 0) == Some(i)
  {
    var r := RecordFor(recs, channelNo, 0);
    assert Matches(recs[i].channelNo, channelNo);
  }

  // ----- one record at a time ---------------------------------------------------------------

  /** Record `i` has gained at most one packet, everything else is as it was. */
  lemma PostEffect(st: State, i: nat, msgID: nat, channelNo: nat, payload: Payload)
    requires i < |st.recs| && st.queueLen == QueueTotal(st.recs)
    ensures var st' := Post(st, i, msgID, channelNo, payload);
            && st'.queueLen == QueueTotal(st'.recs) && |st'.recs| == |st.recs| && st'.lastSaveToken == st.lastSaveToken
            && (forall j :: 0 <= j < |st.recs| && j != i ==> st'.recs[j] == st.recs[j])
            && st'.recs[i] == st.recs[i].(lastMsgAckd := st.recs[i].lastMsgSaved,
                                          queue := Enqueue(st.recs[i].queue, Elem(channelNo, msgID, st.recs[i].lastMsgSaved, payload)))
  {
    TotalUpdate(st.recs, i, Post(st, i, msgID, channelNo, payload).recs[i]);
  }

  /** A new number continues the run. */
  lemma EnqueueNext(rec: Rec, e: Elem)
    requires QueueRun(rec) && e.msgID == rec.nextMsgID + 1
    ensures Enqueue(rec.queue, e) == rec.queue + [e]
    ensures NonAcks(rec.queue + [e]) == NonAcks(rec.queue) + [e]
    ensures QueueRun(rec.(nextMsgID := rec.nextMsgID + 1, queue := rec.queue + [e]))
  {
    NonAcksConcat(rec.queue, [e]);
    assert [e][1..] == [];
    if rec.queue != [] && rec.queue[|rec.queue| - 1] == e {
      NonAcksLast(rec.queue);
      assert false;
    }
  }

  lemma EnqueueAck(q: seq<Elem>, e: Elem)
    requires e.msgID == 0
    ensures NonAcks(Enqueue(q, e)) == NonAcks(q)
    ensures forall x :: x in Enqueue(q, e) ==> x in q || x == e
  {
    NonAcksConcat(q, [e]);
    assert [e][1..] == [];
  }

  // ----- removal ----------------------------------------------------------------------------

  lemma {:induction false} KeepOthers(q: seq<Elem>, channelNo: nat, msgID: nat)
    requires forall e :: e in q ==> Masked(e.channelNo) != 0 && Masked(e.channelNo) != Masked(channelNo)
    ensures Keep(q, channelNo, msgID) == q
  {
    if q != [] {
      KeepOthers(q[1..], channelNo, msgID);
      assert q == [q[0]] + q[1..];
    }
  }

  lemma {:induction false} KeepSubset(q: seq<Elem>, channelNo: nat, msgID: nat, e: Elem)
    requires e in Keep(q, channelNo, msgID)
    ensures e in q && !Acked(e, channelNo, msgID)
  {
    if q != [] && e in Keep(q[1..], channelNo, msgID) {
      KeepSubset(q[1..], channelNo, msgID, e);
    }
  }

  /** How many of a run that starts after `lo` an ACK for `msgID` removes. */
  function Dropped(lo: nat, n: nat, msgID: nat): (d: nat)
    ensures d <= n
  {
    if msgID <= lo then 0 else if msgID >= lo + n then n else msgID - lo
  }

  /** On the channel itself an ACK removes the front of the run, up to the number acknowledged. */
  lemma {:induction false} KeepRun(q: seq<Elem>, channelNo: nat, msgID: nat, lo: nat)
    requires forall k :: 0 <= k < |q| ==> Masked(q[k].channelNo) == Masked(channelNo)
    requires RunFrom(NonAcks(q), lo)
    ensures NonAcks(Keep(q, channelNo, msgID)) == NonAcks(q)[Dropped(lo, |NonAcks(q)|, msgID)..]
  {
    hide NonAcks, Masked, Keep;
    if q == [] {
      KeepNone(channelNo, msgID);
    } else {
      var e, rest := q[0], q[1..];
      assert q == [e] + rest;
      NonAcksFirst(e, rest);
      KeepFirst(e, rest, channelNo, msgID);
      if e.msgID == 0 {
        KeepRun(rest, channelNo, msgID, lo);
      } else {
        RunRest(e, NonAcks(rest), lo);
        KeepRun(rest, channelNo, msgID, lo + 1);
        NonAcksFirst(e, Keep(rest, channelNo, msgID));
        DropFirst(e, NonAcks(rest), lo, msgID);
      }
    }
  }

  lemma KeepNone(channelNo: nat, msgID: nat)
    ensures Keep([], channelNo, msgID) == [] && NonAcks([]) == []
  {}

  lemma KeepFirst(e: Elem, rest: seq<Elem>, channelNo: nat, msgID: nat)
    requires Masked(e.channelNo) == Masked(channelNo)
    ensures Keep([e] + rest, channelNo, msgID) ==
            if e.msgID <= msgID then Keep(rest, channelNo, msgID) else [e] + Keep(rest, channelNo, msgID)
  {
    assert ([e] + rest)[1..] == rest;
  }

  lemma DropFirst(e: Elem, n: seq<Elem>, lo: nat, msgID: nat)
    ensures ([e] + n)[Dropped(lo, |n| + 1, msgID)..] ==
            if msgID <= lo then [e] + n[Dropped(lo + 1, |n|, msgID)..] else n[Dropped(lo + 1, |n|, msgID)..]
  {}

  lemma RunRest(e: Elem, n: seq<Elem>, lo: nat)
    requires RunFrom([e] + n, lo)
    ensures e.msgID == lo + 1 && RunFrom(n, lo + 1)
  {
    var all := [e] + n;
    assert all[0] == e;
    forall k | 0 <= k < |n|
      ensures n[k].msgID == lo + 2 + k
    {
      assert all[k + 1] == n[k];
    }
  }

  /** Trimming by an ACK touches the queue of that channel's record and no other. */
  lemma RemoveEffect(st: State, i: nat, channelNo: nat, msgID: nat)
    requires StateOk(st) && RecordFor(st.recs, channelNo, 0) == Some(i) && Masked(channelNo) != 0
    ensures var st' := RemoveFromQueue(st, channelNo, msgID);
            && st'.queueLen == QueueTotal(st'.recs) && |st'.recs| == |st.recs| && st'.lastSaveToken == st.lastSaveToken
            && (forall j :: 0 <= j < |st.recs| && j != i ==> st'.recs[j] == st.recs[j])
            && st'.recs[i] == st.recs[i].(queue := Keep(st.recs[i].queue, channelNo, msgID))
  {
    var st' := RemoveFromQueue(st, channelNo, msgID);
    forall j | 0 <= j < |st.recs| && j != i
      ensures st'.recs[j] == st.recs[j]
    {
      assert OwnElems(st.recs[j]);
      assert Masked(st.recs[j].channelNo) != Masked(st.recs[i].channelNo);
      KeepOthers(st.recs[j].queue, channelNo, msgID);
    }
  }

  /** After an ACK for `msgID` the record's run begins no later than just behind it. */
  lemma {:induction false} AckedRun(rec: Rec, channelNo: nat, msgID: nat)
    requires QueueRun(rec) && OwnElems(rec) && Masked(channelNo) == Masked(rec.channelNo)
    ensures var rec' := rec.(queue := Keep(rec.queue, channelNo, msgID));
            var lo, lo' := rec.nextMsgID - |NonAcks(rec.queue)|, rec.nextMsgID - |NonAcks(rec'.queue)|;
            QueueRun(rec') && OwnElems(rec') && lo' == lo + Dropped(lo, |NonAcks(rec.queue)|, msgID)
            && NonAcks(rec'.queue) == NonAcks(rec.queue)[lo' - lo..]
  {
    var n := NonAcks(rec.queue);
    KeepRun(rec.queue, channelNo, msgID, rec.nextMsgID - |n|);
    forall e | e in Keep(rec.queue, channelNo, msgID)
      ensures Masked(e.channelNo) == Masked(rec.channelNo)
    {
      KeepSubset(rec.queue, channelNo, msgID, e);
    }
  }

  // ----- acknowledging ----------------------------------------------------------------------

  /** The record may have gained one bare ACK quoting lastMsgSaved, and nothing else. */
  ghost predicate AckAdded(before: Rec, after: Rec) {
    && after.(lastMsgAckd := before.lastMsgAckd, queue := before.queue) == before
    && NonAcks(after.queue) == NonAcks(before.queue)
    && forall e :: e in after.queue ==> e in before.queue || e == Elem(before.channelNo, 0, before.lastMsgSaved, [])
  }

  /** A record that is owed an ACK ends with one that quotes lastMsgSaved, and counts it as sent;
      one that is owed none is as it was. */
  ghost predicate AckedIf(before: Rec, after: Rec, owed: bool) {
    if !owed then after == before
    else
      var ack := Elem(before.channelNo, 0, before.lastMsgSaved, []);
      && after.(lastMsgAckd := before.lastMsgAckd, queue := before.queue) == before
      && after.lastMsgAckd == before.lastMsgSaved
      && after.queue != [] && after.queue[|after.queue| - 1] == ack
      && after.queue == if before.queue != [] && before.queue[|before.queue| - 1] == ack then before.queue else before.queue + [ack]
  }

  /** Every record from `i` on that is owed an ACK gets one, whatever the others are owed. */
  lemma {:induction false} AckAnyEffect(st: State, force: bool, i: nat)
    requires i <= |st.recs| && st.queueLen == QueueTotal(st.recs)
    ensures var st' := AckAny(st, force, i);
            && st'.queueLen == QueueTotal(st'.recs) && |st'.recs| == |st.recs| && st'.lastSaveToken == st.lastSaveToken
            && (forall j :: 0 <= j < |st.recs| ==> AckAdded(st.recs[j], st'.recs[j]))
            && forall j :: 0 <= j < |st.recs| ==>
                 AckedIf(st.recs[j], st'.recs[j], j >= i && (force || st.recs[j].lastMsgAckd < st.recs[j].lastMsgRcd))
    decreases |st.recs| - i
  {
    hide QueueTotal, AckAdded, AckedIf, Post, Matches;
    if i < |st.recs| {
      var rec := st.recs[i];
      var st1 := if force || rec.lastMsgAckd < rec.lastMsgRcd then Post(st, i, 0, rec.channelNo, []) else st;
      AckPosted(st, i);
      AckAnyEffect(st1, force, i + 1);
      forall j | 0 <= j < |st.recs|
        ensures AckAdded(st.recs[j], AckAny(st1, force, i + 1).recs[j])
      {
        NothingAdded(st.recs[j]);
        AddedTwice(st.recs[j], st1.recs[j], AckAny(st1, force, i + 1).recs[j]);
      }
      AckedStep(st, st1, AckAny(st1, force, i + 1), force, i);
    } else {
      forall j | 0 <= j < |st.recs|
        ensures AckAdded(st.recs[j], st.recs[j]) && AckedIf(st.recs[j], st.recs[j], false)
      {
        NothingAdded(st.recs[j]);
      }
    }
  }

  lemma AckedStep(st: State, st1: State, st': State, force: bool, i: nat)
    requires i < |st.recs| == |st1.recs| == |st'.recs|
    requires forall j :: 0 <= j < |st.recs| && j != i ==> st1.recs[j] == st.recs[j]
    requires AckedIf(st.recs[i], st1.recs[i], force || st.recs[i].lastMsgAckd < st.recs[i].lastMsgRcd)
    requires forall j :: 0 <= j < |st.recs| ==>
               AckedIf(st1.recs[j], st'.recs[j], j >= i + 1 && (force || st1.recs[j].lastMsgAckd < st1.recs[j].lastMsgRcd))
    ensures forall j :: 0 <= j < |st.recs| ==>
              AckedIf(st.recs[j], st'.recs[j], j >= i && (force || st.recs[j].lastMsgAckd < st.recs[j].lastMsgRcd))
  {
    assert st'.recs[i] == st1.recs[i];
    hide AckedIf;
  }

  /** One record's ACK. */
  lemma AckPosted(st: State, i: nat)
    requires i < |st.recs| && st.queueLen == QueueTotal(st.recs)
    ensures var st' := Post(st, i, 0, st.recs[i].channelNo, []);
            && st'.queueLen == QueueTotal(st'.recs) && |st'.recs| == |st.recs| && st'.lastSaveToken == st.lastSaveToken
            && (forall j :: 0 <= j < |st.recs| && j != i ==> st'.recs[j] == st.recs[j]) && AckAdded(st.recs[i], st'.recs[i])
            && AckedIf(st.recs[i], st'.recs[i], true) && AckedIf(st.recs[i], st.recs[i], false)
  {
    hide QueueTotal, Post;
    PostEffect(st, i, 0, st.recs[i].channelNo, []);
    EnqueueAck(st.recs[i].queue, Elem(st.recs[i].channelNo, 0, st.recs[i].lastMsgSaved, []));
  }

  lemma NothingAdded(rec: Rec)
    ensures AckAdded(rec, rec) && AckedIf(rec, rec, false)
  {}

  lemma AddedTwice(a: Rec, b: Rec, c: Rec)
    requires AckAdded(a, b) && AckAdded(b, c)
    ensures AckAdded(a, c)
  {
    hide NonAcks;
  }

  lemma AckAddedOk(before: Rec, after: Rec)
    requires AckAdded(before, after) && QueueRun(before) && OwnElems(before)
    ensures QueueRun(after) && OwnElems(after)
  {}
}
