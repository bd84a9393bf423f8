/** What acknowledgements are for: the ACKs a device queues, and what they take off the peer. */
module CommsAcks {
  import opened Wrappers
  import opened CommsState
  import opened CommsQueue
  import opened CommsKeep

  /** The last packet of a queue is the bare ACK for `ack` on that channel. */
  ghost predicate EndsWithAck(rec: Rec, ack: nat) {
    rec.queue != [] && rec.queue[|rec.queue| - 1] == Elem(rec.channelNo, 0, ack, [])
  }

  /** A save that has reached the disk is told on every channel that has not been told. */
  lemma SavedAcks(st: State, token: nat, j: nat)
    requires StateOk(st) && token == st.lastSaveToken && j < |st.recs|
    ensures var rec, rec' := st.recs[j], SaveSucceeded(st, token).recs[j];
            && rec'.channelNo == rec.channelNo && rec'.lastMsgSaved == rec'.lastMsgRcd == rec.lastMsgRcd
            && if rec.lastMsgAckd < rec.lastMsgRcd then rec'.lastMsgAckd == rec.lastMsgRcd && EndsWithAck(rec', rec.lastMsgRcd)
               else rec' == rec.(lastMsgSaved := rec.lastMsgRcd)
  {
    hide StateOk, SaveSucceeded;
    SavedEffect(st, token);
  }

  /** A number out of order is answered on every channel, and nothing else changes there but what
      the packet's own ACK has taken off. */
  lemma LateAcks(st: State, i: nat, e: Elem, rejected: bool, j: nat)
    requires StateOk(st) && i < |st.recs| && Masked(e.channelNo) == Masked(st.recs[i].channelNo) && j < |st.recs|
    requires e.msgID != 0 && e.msgID != st.recs[i].lastMsgRcd + 1
    ensures var rec, rec' := st.recs[j], Receive(st, e, rejected).recs[j];
            && rec'.lastMsgAckd == rec.lastMsgSaved && EndsWithAck(rec', rec.lastMsgSaved)
            && rec'.(lastMsgAckd := rec.lastMsgAckd, queue := rec.queue) == rec
            && forall x :: x in rec'.queue <==> x == Elem(rec.channelNo, 0, rec.lastMsgSaved, [])
                                                || (x in rec.queue && (j == i ==> x.msgID > e.ack))
  {
    hide QueueTotal, Keep, QueueRun, OwnElems, RecordFor, AckAdded;
    RecordForIs(st.recs, e.channelNo, i);
    RemoveEffect(st, i, e.channelNo, e.ack);
    var st1 := RemoveFromQueue(st, e.channelNo, e.ack);
    hide RemoveFromQueue, StateOk;
    AckAnyEffect(st1, true, 0);
    assert Receive(st, e, rejected) == AckAny(st1, true, 0);
    hide AckAny, Receive;
    QueueKept(st, i, e.channelNo, e.ack);
  }

  /** An ACK takes off the packets up to the number it quotes, and no other. */
  lemma QueueKept(st: State, i: nat, channelNo: nat, ack: nat)
    requires StateOk(st) && i < |st.recs| && Masked(channelNo) == Masked(st.recs[i].channelNo)
    ensures forall x :: x in Keep(st.recs[i].queue, channelNo, ack) <==> x in st.recs[i].queue && x.msgID > ack
  {
    hide QueueTotal, QueueRun;
    var q := st.recs[i].queue;
    assert OwnElems(st.recs[i]);
    forall x
      ensures x in Keep(q, channelNo, ack) <==> x in q && x.msgID > ack
    {
      KeptExactly(q, channelNo, ack, x);
    }
  }

  lemma {:induction false} KeptExactly(q: seq<Elem>, channelNo: nat, ack: nat, x: Elem)
    requires forall e :: e in q ==> Masked(e.channelNo) == Masked(channelNo)
    ensures x in Keep(q, channelNo, ack) <==> x in q && x.msgID > ack
  {
    if q != [] {
      assert q == [q[0]] + q[1..];
      KeptExactly(q[1..], channelNo, ack, x);
    }
  }

  /** On any channel, established or not: an ACK takes off a packet unless its number is higher or
      it is on another channel that is established. */
  lemma {:induction false} KeepExact(q: seq<Elem>, channelNo: nat, ack: nat, x: Elem)
    ensures x in Keep(q, channelNo, ack) <==>
              x in q && (x.msgID > ack || (x.channelNo / 4 != channelNo / 4 && x.channelNo / 4 != 0))
  {
    if q != [] {
      assert q == [q[0]] + q[1..];
      KeepExact(q[1..], channelNo, ack, x);
    }
  }

  /** Every queue is gone through, but for an ACK on a channel that is neither known nor 0. */
  lemma RemovedExactly(st: State, channelNo: nat, ack: nat, j: nat, x: Elem)
    requires st.queueLen == QueueTotal(st.recs) && j < |st.recs|
    ensures var st' := RemoveFromQueue(st, channelNo, ack);
            var known := channelNo == 0 || exists k :: 0 <= k < |st.recs| && Matches(st.recs[k].channelNo, channelNo);
            && |st'.recs| == |st.recs| && st'.queueLen == QueueTotal(st'.recs)
            && st'.recs[j].(queue := st.recs[j].queue) == st.recs[j]
            && (x in st'.recs[j].queue <==>
                  x in st.recs[j].queue && (known ==> x.msgID > ack || (x.channelNo / 4 != channelNo / 4 && x.channelNo / 4 != 0)))
  {
    hide Matches, Keep, QueueTotal;
    KeepExact(st.recs[j].queue, channelNo, ack, x);
  }

  /** A bare ACK takes what it acknowledges off its channel's queue, and nothing else changes. */
  lemma AckHeard(peer: State, i: nat, ack: Elem, rejected: bool)
    requires StateOk(peer) && i < |peer.recs| && Masked(ack.channelNo) == Masked(peer.recs[i].channelNo) && ack.msgID == 0
    ensures var peer' := Receive(peer, ack, rejected);
            && (forall k :: 0 <= k < |peer.recs| && k != i ==> peer'.recs[k] == peer.recs[k])
            && peer'.recs[i].(queue := peer.recs[i].queue) == peer.recs[i]
            && forall x :: x in peer'.recs[i].queue <==> x in peer.recs[i].queue && x.msgID > ack.ack
  {
    hide QueueTotal, Keep, QueueRun, OwnElems, RecordFor;
    RecordForIs(peer.recs, ack.channelNo, i);
    RemoveEffect(peer, i, ack.channelNo, ack.ack);
    QueueKept(peer, i, ack.channelNo, ack.ack);
  }

  /** So, when a device has saved, the ACK it queues for a peer, once delivered, leaves that peer
      exactly the packets above what the device has taken: none of those need be sent again. */
  lemma SavedIsHeard(st: State, token: nat, j: nat, peer: State, i: nat, rejected: bool)
    requires StateOk(st) && token == st.lastSaveToken && j < |st.recs| && st.recs[j].lastMsgAckd < st.recs[j].lastMsgRcd
    requires StateOk(peer) && i < |peer.recs| && Masked(peer.recs[i].channelNo) == Masked(st.recs[j].channelNo)
    ensures var q := SaveSucceeded(st, token).recs[j].queue;
            q != [] && var peer' := Receive(peer, q[|q| - 1], rejected);
            forall x :: x in peer'.recs[i].queue <==> x in peer.recs[i].queue && x.msgID > st.recs[j].lastMsgRcd
  {
    hide StateOk, SaveSucceeded, Receive, Masked;
    SavedAcks(st, token, j);
    var q := SaveSucceeded(st, token).recs[j].queue;
    AckHeard(peer, i, q[|q| - 1], rejected);
  }

  /** And the answer to a packet out of order leaves each peer the packets not yet saved. */
  lemma LateIsHeard(st: State, k: nat, e: Elem, late: bool, j: nat, peer: State, i: nat, rejected: bool)
    requires StateOk(st) && k < |st.recs| && Masked(e.channelNo) == Masked(st.recs[k].channelNo) && j < |st.recs|
    requires e.msgID != 0 && e.msgID != st.recs[k].lastMsgRcd + 1
    requires StateOk(peer) && i < |peer.recs| && Masked(peer.recs[i].channelNo) == Masked(st.recs[j].channelNo)
    ensures var q := Receive(st, e, late).recs[j].queue;
            q != [] && var peer' := Receive(peer, q[|q| - 1], rejected);
            forall x :: x in peer'.recs[i].queue <==> x in peer.recs[i].queue && x.msgID > st.recs[j].lastMsgSaved
  {
    hide ChannelsOk, QueueRun, OwnElems, QueueTotal, Receive, Masked;
    LateAcks(st, k, e, late, j);
    var q := Receive(st, e, late).recs[j].queue;
    AckHeard(peer, i, q[|q| - 1], rejected);
  }

  // ----- which record, and what is passed over ----------------------------------------------

  /** The low two bits of a channel number do not matter, unless both have nothing else. */
  lemma ChannelBits(a: nat, x: nat, b: nat, y: nat)
    requires x < 4 && y < 4
    ensures Matches(4 * a + x, 4 * b + y) <==> a == b && (a == 0 ==> x == y)
  {
    assert Masked(4 * a + x) == a && Masked(4 * b + y) == b;
  }

  /** Nothing is sent without a payload, nothing is done about a channel that is not known, and a
      token that is not the latest changes nothing. */
  lemma PassedOver(st: State, e: Elem, rejected: bool, payload: Payload, token: nat)
    requires st.queueLen == QueueTotal(st.recs)
    ensures Send(st, e.channelNo, []) == st
    ensures (forall i :: 0 <= i < |st.recs| ==> !Matches(st.recs[i].channelNo, e.channelNo)) ==>
              Send(st, e.channelNo, payload) == st && Receive(st, e, rejected) == st
    ensures token != st.lastSaveToken ==> SaveSucceeded(st, token) == st
  {
    hide Matches;
    var i := RecordFor(st.recs, e.channelNo, 0);
  }
}
