/** The queue invariant over every operation, and what a save and restart loses. */
module CommsKeep {
  import opened Wrappers
  import opened CommsState
  import opened CommsQueue

  // ----- effects ----------------------------------------------------------------------------

  /** comms_send numbers the packet next and appends it; other records stay. */
  lemma SendEffect(st: State, i: nat, channelNo: nat, payload: Payload)
    requires StateOk(st) && i < |st.recs| && Masked(channelNo) == Masked(st.recs[i].channelNo) && payload != []
    ensures var st' := Send(st, channelNo, payload);
            var rec := st.recs[i];
            && StateOk(st') && |st'.recs| == |st.recs| && st'.lastSaveToken == st.lastSaveToken
            && (forall j :: 0 <= j < |st.recs| && j != i ==> st'.recs[j] == st.recs[j])
            && st'.recs[i] == rec.(nextMsgID := rec.nextMsgID + 1, lastMsgAckd := rec.lastMsgSaved,
                                   queue := rec.queue + [Elem(channelNo, rec.nextMsgID + 1, rec.lastMsgSaved, payload)])
  {
    hide *;
    var rec, st' := st.recs[i], Send(st, channelNo, payload);
    var e := Elem(channelNo, rec.nextMsgID + 1, rec.lastMsgSaved, payload);
    RecordIsOk(st, i);
    EnqueueNext(rec, e);
    SendChanges(st, i, channelNo, payload);
    RunIgnores(rec.(nextMsgID := rec.nextMsgID + 1, queue := rec.queue + [e]), st'.recs[i]);
    OwnMore(rec, st'.recs[i], e);
    StateStaysOk(st, i, st');
  }

  lemma RecordIsOk(st: State, i: nat)
    requires StateOk(st) && i < |st.recs|
    ensures QueueRun(st.recs[i]) && OwnElems(st.recs[i])
  {}

  lemma StateStaysOk(st: State, i: nat, st': State)
    requires StateOk(st) && i < |st.recs| == |st'.recs| && st'.queueLen == QueueTotal(st'.recs)
    requires forall j :: 0 <= j < |st.recs| && j != i ==> st'.recs[j] == st.recs[j]
    requires st'.recs[i].channelNo == st.recs[i].channelNo && QueueRun(st'.recs[i]) && OwnElems(st'.recs[i])
    ensures StateOk(st')
  {
    hide QueueRun, OwnElems, QueueTotal, Masked;
    forall j | 0 <= j < |st.recs|
      ensures st'.recs[j].channelNo == st.recs[j].channelNo && QueueRun(st'.recs[j]) && OwnElems(st'.recs[j])
    {
      if j != i { assert st'.recs[j] == st.recs[j]; }
    }
  }

  lemma OwnMore(rec: Rec, after: Rec, e: Elem)
    requires OwnElems(rec) && after.channelNo == rec.channelNo && after.queue == rec.queue + [e] && Masked(e.channelNo) == Masked(rec.channelNo)
    ensures OwnElems(after)
  {}

  /** What is changed: the one record, and the count. */
  lemma SendChanges(st: State, i: nat, channelNo: nat, payload: Payload)
    requires StateOk(st) && i < |st.recs| && Masked(channelNo) == Masked(st.recs[i].channelNo) && payload != []
    ensures var st' := Send(st, channelNo, payload);
            var rec := st.recs[i];
            && st'.queueLen == QueueTotal(st'.recs) && |st'.recs| == |st.recs| && st'.lastSaveToken == st.lastSaveToken
            && (forall j :: 0 <= j < |st.recs| && j != i ==> st'.recs[j] == st.recs[j])
            && st'.recs[i] == rec.(nextMsgID := rec.nextMsgID + 1, lastMsgAckd := rec.lastMsgSaved,
                                   queue := Enqueue(rec.queue, Elem(channelNo, rec.nextMsgID + 1, rec.lastMsgSaved, payload)))
  {
    hide QueueRun, OwnElems, Enqueue, QueueTotal, Masked, Post;
    var rec := st.recs[i];
    RecordForIs(st.recs, channelNo, i);
    var rec1 := rec.(nextMsgID := rec.nextMsgID + 1);
    TotalUpdate(st.recs, i, rec1);
    PostEffect(st.(recs := st.recs[i := rec1]), i, rec.nextMsgID + 1, channelNo, payload);
  }

  /** Only the numbering and the queue matter to the invariant of a record. */
  lemma RunIgnores(a: Rec, b: Rec)
    requires QueueRun(a) && b.nextMsgID == a.nextMsgID && b.queue == a.queue
    ensures QueueRun(b)
  {}

  /** What one record may go through in a step that numbers nothing new: its queue trimmed by an
      ACK on its own channel, a bare ACK added, a message taken. */
  ghost predicate Touched(before: Rec, after: Rec, ack: nat) {
    && after.channelNo == before.channelNo && after.nextMsgID == before.nextMsgID
    && QueueRun(after) && OwnElems(after)
    && (forall e :: e in after.queue ==> e in before.queue || e == Elem(before.channelNo, 0, before.lastMsgSaved, []))
    && var lo, lo' := before.nextMsgID - |NonAcks(before.queue)|, after.nextMsgID - |NonAcks(after.queue)|;
    && lo <= lo' && (lo' == lo || lo' <= ack)
    && (ack <= lo || lo' >= (if ack <= before.nextMsgID then ack else before.nextMsgID))
    && NonAcks(after.queue) == NonAcks(before.queue)[lo' - lo..]
  }

  lemma KeepTouches(rec: Rec, channelNo: nat, ack: nat)
    requires QueueRun(rec) && OwnElems(rec) && Masked(channelNo) == Masked(rec.channelNo)
    ensures Touched(rec, rec.(queue := Keep(rec.queue, channelNo, ack)), ack)
  {
    AckedRun(rec, channelNo, ack);
    hide NonAcks, Keep;
    var rec' := rec.(queue := Keep(rec.queue, channelNo, ack));
    forall e | e in rec'.queue
      ensures e in rec.queue
    {
      KeepSubset(rec.queue, channelNo, ack, e);
    }
  }

  lemma TouchedSame(rec: Rec)
    requires QueueRun(rec) && OwnElems(rec)
    ensures Touched(rec, rec, 0)
  {
    assert NonAcks(rec.queue)[0..] == NonAcks(rec.queue);
  }

  lemma TouchedThenAcked(before: Rec, mid: Rec, after: Rec, ack: nat)
    requires Touched(before, mid, ack) && AckAdded(mid, after) && mid.lastMsgSaved == before.lastMsgSaved
    ensures Touched(before, after, ack)
  {}

  /** What taking a packet off the network may do to a device: the record of the packet's channel
      is trimmed by its ACK, others keep their numbered packets; the number received goes up by
      one exactly when the packet is the expected one and is not rejected. */
  ghost predicate Received(st: State, st': State, i: nat, e: Elem, rejected: bool)
    requires i < |st.recs|
  {
    && StateOk(st') && |st'.recs| == |st.recs|
    && Touched(st.recs[i], st'.recs[i], e.ack)
    && (forall j :: 0 <= j < |st.recs| && j != i ==>
          Touched(st.recs[j], st'.recs[j], 0) && st'.recs[j].lastMsgRcd == st.recs[j].lastMsgRcd)
    && (forall j :: 0 <= j < |st.recs| ==> st'.recs[j].lastMsgSaved == st.recs[j].lastMsgSaved)
    && st'.recs[i].lastMsgRcd == (if Expected(st, e) == Some(i) && !rejected then e.msgID else st.recs[i].lastMsgRcd)
    && st'.lastSaveToken == (if e.msgID != 0 && e.msgID == st.recs[i].lastMsgRcd + 1 then 0 else st.lastSaveToken)
  }

  lemma ReceiveEffect(st: State, i: nat, e: Elem, rejected: bool)
    requires StateOk(st) && i < |st.recs| && Masked(e.channelNo) == Masked(st.recs[i].channelNo)
    ensures Received(st, Receive(st, e, rejected), i, e, rejected)
  {
    hide Touched, QueueRun, OwnElems, ChannelsOk, Keep, Masked, AckAny, RemoveFromQueue, Received, RecordFor;
    WhichRecord(st, i, e);
    Trimmed(st, i, e);
    var st1 := RemoveFromQueue(st, e.channelNo, e.ack);
    if e.msgID == 0 {
      ReceivedSame(st, st1, i, e, rejected);
    } else if e.msgID != st.recs[i].lastMsgRcd + 1 {
      AckedAll(st, st1, i, e.ack);
      ReceivedSame(st, AckAny(st1, true, 0), i, e, rejected);
    } else {
      ReceivedNext(st, st1, i, e, rejected);
    }
  }

  lemma WhichRecord(st: State, i: nat, e: Elem)
    requires StateOk(st) && i < |st.recs| && Masked(e.channelNo) == Masked(st.recs[i].channelNo)
    ensures RecordFor(st.recs, e.channelNo, 0) == Some(i)
    ensures Expected(st, e) == if e.msgID != 0 && e.msgID == st.recs[i].lastMsgRcd + 1 && e.payload != [] then Some(i) else None
  {
    hide Masked;
    RecordForIs(st.recs, e.channelNo, i);
  }

  /** What trimming and acknowledging leave, on every record. */
  ghost predicate AllTouched(st: State, st': State, i: nat, ack: nat) {
    && st'.queueLen == QueueTotal(st'.recs) && |st'.recs| == |st.recs|
    && forall j :: 0 <= j < |st.recs| ==>
         && Touched(st.recs[j], st'.recs[j], if j == i then ack else 0)
         && st'.recs[j].lastMsgRcd == st.recs[j].lastMsgRcd && st'.recs[j].lastMsgSaved == st.recs[j].lastMsgSaved
  }

  lemma ReceivedSame(st: State, st': State, i: nat, e: Elem, rejected: bool)
    requires StateOk(st) && i < |st.recs| && Masked(e.channelNo) == Masked(st.recs[i].channelNo)
    requires AllTouched(st, st', i, e.ack) && st'.lastSaveToken == st.lastSaveToken
    requires e.msgID == 0 || e.msgID != st.recs[i].lastMsgRcd + 1
    ensures Received(st, st', i, e, rejected)
  {
    hide Touched, StateOk, Masked, Expected;
    WhichRecord(st, i, e);
    TouchedOk(st, st', i, e.ack);
  }

  lemma ReceivedNext(st: State, st1: State, i: nat, e: Elem, rejected: bool)
    requires StateOk(st) && i < |st.recs| && Masked(e.channelNo) == Masked(st.recs[i].channelNo)
    requires AllTouched(st, st1, i, e.ack) && e.msgID != 0 && e.msgID == st.recs[i].lastMsgRcd + 1
    ensures Received(st, if e.payload == [] || rejected then st1.(lastSaveToken := 0)
                         else st1.(lastSaveToken := 0, recs := st1.recs[i := st1.recs[i].(lastMsgRcd := e.msgID)]), i, e, rejected)
  {
    hide Touched, StateOk, Masked, Expected;
    WhichRecord(st, i, e);
    var after := st1.recs[i].(lastMsgRcd := e.msgID);
    var st' := if e.payload == [] || rejected then st1.(lastSaveToken := 0)
               else st1.(lastSaveToken := 0, recs := st1.recs[i := after]);
    TotalUpdate(st1.recs, i, after);
    TouchedCounts(st.recs[i], st1.recs[i], after, e.ack);
    TouchedOk(st, st', i, e.ack);
  }

  /** The device after the packet's ACK has been applied. */
  lemma Trimmed(st: State, i: nat, e: Elem)
    requires StateOk(st) && i < |st.recs| && Masked(e.channelNo) == Masked(st.recs[i].channelNo)
    ensures var st1 := RemoveFromQueue(st, e.channelNo, e.ack);
            AllTouched(st, st1, i, e.ack) && st1.lastSaveToken == st.lastSaveToken
  {
    hide Touched, QueueRun, OwnElems, Keep, RecordFor;
    RecordForIs(st.recs, e.channelNo, i);
    RemoveEffect(st, i, e.channelNo, e.ack);
    KeepTouches(st.recs[i], e.channelNo, e.ack);
    forall j | 0 <= j < |st.recs| && j != i
      ensures Touched(st.recs[j], RemoveFromQueue(st, e.channelNo, e.ack).recs[j], 0)
    {
      TouchedSame(st.recs[j]);
    }
  }

  lemma AckedAll(st: State, st1: State, i: nat, ack: nat)
    requires AllTouched(st, st1, i, ack)
    ensures AllTouched(st, AckAny(st1, true, 0), i, ack) && AckAny(st1, true, 0).lastSaveToken == st1.lastSaveToken
  {
    hide Touched, NonAcks;
    AckAnyEffect(st1, true, 0);
    var st' := AckAny(st1, true, 0);
    forall j | 0 <= j < |st.recs|
      ensures Touched(st.recs[j], st'.recs[j], if j == i then ack else 0)
    {
      TouchedThenAcked(st.recs[j], st1.recs[j], st'.recs[j], if j == i then ack else 0);
    }
  }

  /** The number received is no part of the queue. */
  lemma TouchedCounts(before: Rec, mid: Rec, after: Rec, ack: nat)
    requires Touched(before, mid, ack) && after == mid.(lastMsgRcd := after.lastMsgRcd)
    ensures Touched(before, after, ack)
  {}

  lemma TouchedOk(st: State, st': State, i: nat, ack: nat)
    requires StateOk(st) && |st'.recs| == |st.recs| && st'.queueLen == QueueTotal(st'.recs)
    requires forall j :: 0 <= j < |st.recs| ==> Touched(st.recs[j], st'.recs[j], if j == i then ack else 0)
    ensures StateOk(st')
  {
    hide QueueRun, OwnElems, NonAcks;
  }

  /** comms_saveSucceeded with the current token marks everything received as saved and queues an
      ACK that says so on every record that is behind; with any other token it does nothing. */
  lemma SavedEffect(st: State, token: nat)
    requires StateOk(st)
    ensures var st' := SaveSucceeded(st, token);
            && StateOk(st') && |st'.recs| == |st.recs| && st'.lastSaveToken == st.lastSaveToken
            && forall j :: 0 <= j < |st.recs| ==>
                 var saved := if token == st.lastSaveToken then st.recs[j].lastMsgRcd else st.recs[j].lastMsgSaved;
                 && AckAdded(st.recs[j].(lastMsgSaved := saved), st'.recs[j])
                 && AckedIf(st.recs[j].(lastMsgSaved := saved), st'.recs[j],
                            token == st.lastSaveToken && st.recs[j].lastMsgAckd < st.recs[j].lastMsgRcd)
  {
    hide QueueRun, OwnElems, NonAcks;
    if token == st.lastSaveToken {
      var recs := seq(|st.recs|, i requires 0 <= i < |st.recs| => st.recs[i].(lastMsgSaved := st.recs[i].lastMsgRcd));
      SameQueues(st.recs, recs);
      AckAnyEffect(st.(recs := recs), false, 0);
      forall j | 0 <= j < |st.recs|
        ensures QueueRun(SaveSucceeded(st, token).recs[j]) && OwnElems(SaveSucceeded(st, token).recs[j])
      {
        SavedRecOk(st.recs[j], recs[j]);
        AckAddedOk(recs[j], SaveSucceeded(st, token).recs[j]);
      }
    }
  }

  lemma SavedRecOk(before: Rec, after: Rec)
    requires QueueRun(before) && OwnElems(before) && after == before.(lastMsgSaved := before.lastMsgRcd)
    ensures QueueRun(after) && OwnElems(after)
  {}

  lemma {:induction false} SameQueues(a: seq<Rec>, b: seq<Rec>)
    requires |a| == |b| && forall i :: 0 <= i < |a| ==> a[i].queue == b[i].queue
    ensures QueueTotal(a) == QueueTotal(b)
  {
    if a != [] {
      SameQueues(a[1..], b[1..]);
    }
  }

  // ----- save and restart -------------------------------------------------------------------

  /** A record after a restart: bare ACKs are gone, and what was received counts as saved. */
  function Restarted(rec: Rec): Rec {
    rec.(lastMsgSaved := rec.lastMsgRcd, queue := NonAcks(rec.queue))
  }

  function RestartedRecs(recs: seq<Rec>): (r: seq<Rec>)
    ensures |r| == |recs| && forall i :: 0 <= i < |recs| ==> r[i] == Restarted(recs[i])
  {
    seq(|recs|, i requires 0 <= i < |recs| => Restarted(recs[i]))
  }

  /** The packets of one record come back onto its queue one after another. */
  lemma {:induction false} AddOwnRun(st: State, i: nat, es: seq<Elem>, more: seq<Elem>)
    requires ChannelsOk(st.recs) && i < |st.recs|
    requires forall k :: 0 <= k < |es| ==> Masked(es[k].channelNo) == Masked(st.recs[i].channelNo)
    requires forall k :: 0 <= k < |es| - 1 ==> es[k] != es[k + 1]
    requires es != [] && st.recs[i].queue != [] ==> st.recs[i].queue[|st.recs[i].queue| - 1] != es[0]
    ensures var rec := st.recs[i];
            AddAll(st, es + more) ==
            AddAll(st.(recs := st.recs[i := rec.(queue := rec.queue + es)], queueLen := st.queueLen + |es|), more)
    decreases |es|
  {
    hide Masked, ChannelsOk, AddToQueue;
    var rec := st.recs[i];
    if es == [] {
      assert es + more == more && rec.queue + es == rec.queue;
      assert st.recs[i := rec] == st.recs;
    } else {
      var all := es + more;
      assert all[0] == es[0] && all[1..] == es[1..] + more;
      AddOne(st, i, es[0]);
      var q := rec.queue + [es[0]];
      var st1 := st.(recs := st.recs[i := rec.(queue := q)], queueLen := st.queueLen + 1);
      SameChannels(st.recs, i, rec.(queue := q));
      AddOwnRun(st1, i, es[1..], more);
      assert q + es[1..] == rec.queue + es;
      assert st1.recs[i := rec.(queue := rec.queue + es)] == st.recs[i := rec.(queue := rec.queue + es)];
    }
  }

  lemma AddOne(st: State, i: nat, e: Elem)
    requires ChannelsOk(st.recs) && i < |st.recs| && Masked(e.channelNo) == Masked(st.recs[i].channelNo)
    requires st.recs[i].queue == [] || st.recs[i].queue[|st.recs[i].queue| - 1] != e
    ensures AddToQueue(st, e) ==
            st.(recs := st.recs[i := st.recs[i].(queue := st.recs[i].queue + [e])], queueLen := st.queueLen + 1)
  {
    hide Masked;
    RecordForIs(st.recs, e.channelNo, i);
  }

  lemma SameChannels(recs: seq<Rec>, i: nat, rec: Rec)
    requires ChannelsOk(recs) && i < |recs| && rec.channelNo == recs[i].channelNo
    ensures ChannelsOk(recs[i := rec])
  {}

  lemma RunDistinct(rec: Rec)
    requires QueueRun(rec)
    ensures forall k :: 0 <= k < |NonAcks(rec.queue)| - 1 ==> NonAcks(rec.queue)[k] != NonAcks(rec.queue)[k + 1]
  {
    var n := NonAcks(rec.queue);
    forall k | 0 <= k < |n| - 1
      ensures n[k] != n[k + 1]
    {
      assert n[k].msgID + 1 == n[k + 1].msgID;
    }
  }

  lemma OwnNonAcks(rec: Rec)
    requires OwnElems(rec)
    ensures forall k :: 0 <= k < |NonAcks(rec.queue)| ==> Masked(NonAcks(rec.queue)[k].channelNo) == Masked(rec.channelNo)
  {
    var n := NonAcks(rec.queue);
    forall k | 0 <= k < |n|
      ensures Masked(n[k].channelNo) == Masked(rec.channelNo)
    {
      assert n[k] in n;
      NonAcksHas(rec.queue, n[k]);
    }
  }

  /** The records from `i` on, loaded so far with empty queues, get their packets back. */
  lemma {:induction false} LoadFrom(st: State, recs: seq<Rec>, i: nat)
    requires i <= |recs| == |st.recs| && ChannelsOk(recs)
    requires forall j :: 0 <= j < |recs| ==> QueueRun(recs[j]) && OwnElems(recs[j])
    requires forall j :: 0 <= j < |recs| ==>
               st.recs[j] == if j < i then Restarted(recs[j]) else Restarted(recs[j]).(queue := [])
    ensures AddAll(st, AllNonAcks(recs[i..])).recs == RestartedRecs(recs)
    ensures AddAll(st, AllNonAcks(recs[i..])).queueLen == st.queueLen + |AllNonAcks(recs[i..])|
    ensures AddAll(st, AllNonAcks(recs[i..])).lastSaveToken == st.lastSaveToken
    decreases |recs| - i
  {
    hide QueueRun, OwnElems, NonAcks, Masked, ChannelsOk, AddAll;
    if i == |recs| {
      AddNone(st, AllNonAcks(recs[i..]));
      assert st.recs == RestartedRecs(recs);
    } else {
      var es, more := NonAcks(recs[i].queue), AllNonAcks(recs[i + 1..]);
      assert recs[i..][0] == recs[i] && recs[i..][1..] == recs[i + 1..];
      RunDistinct(recs[i]);
      OwnNonAcks(recs[i]);
      ChannelsCopy(recs, st.recs);
      AddOwnRun(st, i, es, more);
      var rec := st.recs[i];
      var st1 := st.(recs := st.recs[i := rec.(queue := rec.queue + es)], queueLen := st.queueLen + |es|);
      assert rec.queue + es == es;
      LoadFrom(st1, recs, i + 1);
    }
  }

  lemma AddNone(st: State, es: seq<Elem>)
    requires es == []
    ensures AddAll(st, es) == st
  {}

  lemma ChannelsCopy(a: seq<Rec>, b: seq<Rec>)
    requires ChannelsOk(a) && |a| == |b| && forall i :: 0 <= i < |a| ==> b[i].channelNo == a[i].channelNo
    ensures ChannelsOk(b)
  {}

  lemma {:induction false} NonAcksTotal(recs: seq<Rec>)
    ensures |AllNonAcks(recs)| == QueueTotal(RestartedRecs(recs))
  {
    if recs != [] {
      NonAcksTotal(recs[1..]);
      assert RestartedRecs(recs)[1..] == RestartedRecs(recs[1..]);
    }
  }

  /** Writing and loading a device loses its bare ACKs and nothing else. */
  lemma SaveLoad(st: State)
    requires StateOk(st)
    ensures Loaded(Written(st)) == State(RestartedRecs(st.recs), QueueTotal(RestartedRecs(st.recs)), 0)
  {
    hide QueueRun, OwnElems;
    var sv := Written(st);
    var start := State(seq(|sv.recs|, i requires 0 <= i < |sv.recs| => LoadedRec(sv.recs[i])), 0, 0);
    assert st.recs[0..] == st.recs;
    LoadFrom(start, st.recs, 0);
    NonAcksTotal(st.recs);
  }

  lemma {:induction false} NonAcksTwice(q: seq<Elem>)
    ensures NonAcks(NonAcks(q)) == NonAcks(q)
  {
    if q != [] {
      NonAcksTwice(q[1..]);
      NonAcksFirst(q[0], NonAcks(q[1..]));
    }
  }

  /** A restarted device satisfies the queue invariant. */
  lemma RestartOk(st: State)
    requires StateOk(st)
    ensures StateOk(State(RestartedRecs(st.recs), QueueTotal(RestartedRecs(st.recs)), 0))
  {
    hide NonAcks;
    var recs := RestartedRecs(st.recs);
    ChannelsCopy(st.recs, recs);
    forall i | 0 <= i < |recs|
      ensures QueueRun(recs[i]) && OwnElems(recs[i])
    {
      NonAcksTwice(st.recs[i].queue);
      forall e | e in recs[i].queue
        ensures Masked(e.channelNo) == Masked(recs[i].channelNo)
      {
        NonAcksHas(st.recs[i].queue, e);
        assert OwnElems(st.recs[i]);
      }
    }
  }

  /** A packet of record `i`'s channel is taken exactly when it is the next one. */
  lemma ReceiveKeeps(st: State, i: nat, e: Elem)
    requires StateOk(st) && i < |st.recs| && Masked(e.channelNo) == Masked(st.recs[i].channelNo)
    ensures var st' := Receive(st, e, false);
            && StateOk(st') && |st'.recs| == |st.recs| && st'.recs[i].channelNo == st.recs[i].channelNo
            && st'.recs[i].lastMsgRcd ==
               if e.msgID == st.recs[i].lastMsgRcd + 1 && e.payload != [] then e.msgID else st.recs[i].lastMsgRcd
  {
    ReceiveEffect(st, i, e, false);
    RecordForIs(st.recs, e.channelNo, i);
  }
}
