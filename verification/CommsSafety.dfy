/** Every run of the protocol keeps the invariant: nothing is lost, nothing is taken twice or out
    of order, and no acknowledgement runs ahead of what has been saved. */
module CommsSafety {
  import opened Wrappers
  import opened CommsState
  import opened CommsQueue
  import opened CommsKeep
  import opened CommsProtocol

  // ----- one record -------------------------------------------------------------------------

  lemma RecOkMore(rec: Rec, sent: seq<Payload>, safe: nat, bound: nat, sent': seq<Payload>, safe': nat, bound': nat)
    requires RecOk(rec, sent, safe, bound) && sent <= sent' && safe <= safe' && bound <= bound'
    ensures RecOk(rec, sent', safe', bound')
  {
    hide QueueRun, OwnElems, NonAcks;
    forall x | x in rec.queue
      ensures ElemOk(x, sent', rec.nextMsgID, bound')
    {
      assert ElemOk(x, sent, rec.nextMsgID, bound);
    }
  }

  lemma LogOkMore(log: seq<Payload>, rcd: nat, peer: seq<Payload>, peer': seq<Payload>)
    requires LogOk(log, rcd, peer) && peer <= peer'
    ensures LogOk(log, rcd, peer')
  {}

  lemma RecOkTouched(before: Rec, after: Rec, ack: nat, sent: seq<Payload>, safe: nat, bound: nat)
    requires RecOk(before, sent, safe, bound) && Touched(before, after, ack)
    requires ack <= safe && before.lastMsgSaved <= bound
    ensures RecOk(after, sent, safe, bound)
  {
    hide QueueRun, OwnElems, NonAcks;
    forall x | x in after.queue
      ensures ElemOk(x, sent, after.nextMsgID, bound)
    {
      if x in before.queue {
        assert ElemOk(x, sent, before.nextMsgID, bound);
      }
    }
  }

  lemma RecOkAckAdded(before: Rec, after: Rec, sent: seq<Payload>, safe: nat, bound: nat)
    requires RecOk(before, sent, safe, bound) && AckAdded(before, after) && before.lastMsgSaved <= bound
    ensures RecOk(after, sent, safe, bound)
  {
    AckAddedOk(before, after);
    hide QueueRun, OwnElems, NonAcks;
    forall x | x in after.queue
      ensures ElemOk(x, sent, after.nextMsgID, bound)
    {
      if x in before.queue {
        assert ElemOk(x, sent, before.nextMsgID, bound);
      }
    }
  }

  lemma RecOkCounters(before: Rec, after: Rec, sent: seq<Payload>, safe: nat, bound: nat)
    requires RecOk(before, sent, safe, bound)
    requires after.channelNo == before.channelNo && after.nextMsgID == before.nextMsgID && after.queue == before.queue
    ensures RecOk(after, sent, safe, bound)
  {
    hide NonAcks;
  }

  lemma RecOkSend(before: Rec, after: Rec, payload: Payload, sent: seq<Payload>, safe: nat, bound: nat)
    requires RecOk(before, sent, safe, bound) && |sent| == before.nextMsgID && before.lastMsgSaved <= bound
    requires QueueRun(after) && OwnElems(after) && after.nextMsgID == before.nextMsgID + 1
    requires after.queue == before.queue + [Elem(before.channelNo, before.nextMsgID + 1, before.lastMsgSaved, payload)]
    ensures RecOk(after, sent + [payload], safe, bound)
  {
    var e := Elem(before.channelNo, before.nextMsgID + 1, before.lastMsgSaved, payload);
    NonAcksConcat(before.queue, [e]);
    NonAcksFirst(e, []);
    assert [e] + [] == [e];
    hide QueueRun, OwnElems, NonAcks;
    forall x | x in after.queue
      ensures ElemOk(x, sent + [payload], after.nextMsgID, bound)
    {
      if x in before.queue {
        assert ElemOk(x, sent, before.nextMsgID, bound);
      }
    }
  }

  lemma RecOkRestarted(rec: Rec, sent: seq<Payload>, safe: nat, bound: nat)
    requires RecOk(rec, sent, safe, bound)
    ensures RecOk(Restarted(rec), sent, safe, bound)
  {
    NonAcksTwice(rec.queue);
    var after := Restarted(rec);
    forall x | x in after.queue
      ensures x in rec.queue
    {
      NonAcksHas(rec.queue, x);
    }
    hide NonAcks;
    forall x | x in after.queue
      ensures ElemOk(x, sent, after.nextMsgID, bound)
    {
      assert ElemOk(x, sent, rec.nextMsgID, bound);
    }
  }

  // ----- one device -------------------------------------------------------------------------

  /** What each record's peer has numbered, and durably received. */
  ghost predicate AllSides(v: Device, peers: seq<seq<Payload>>, safes: seq<nat>) {
    && Sized(v, |v.st.recs|) && |peers| == |safes| == |v.st.recs|
    && forall j :: 0 <= j < |peers| ==> SideOk(v, j, peers[j], safes[j])
  }

  /** A device only ever adds to what it has numbered and durably received. */
  ghost predicate Evolves(v: Device, v': Device) {
    && DeviceOk(v') && Sized(v, |v.st.recs|) && Sized(v', |v.st.recs|) && SameChannelNos(v.st, v'.st)
    && forall j :: 0 <= j < |v.st.recs| ==> v.sent[j] <= v'.sent[j] && Rcd(v, j) <= Rcd(v', j)
  }

  lemma SideOkPeer(v: Device, j: nat, peer: seq<Payload>, safe: nat, peer': seq<Payload>, safe': nat)
    requires j < |v.st.recs| && Sized(v, |v.st.recs|) && SideOk(v, j, peer, safe) && peer <= peer' && safe <= safe'
    ensures SideOk(v, j, peer', safe')
  {
    hide RecOk, LogOk, Ordered;
    var sent, bound := v.sent[j], Rcd(v, j);
    RecOkMore(v.st.recs[j], sent, safe, bound, sent, safe', bound);
    LogOkMore(v.logs[j], v.st.recs[j].lastMsgRcd, peer, peer');
    SnapOkMore(v.durable, j, sent, safe, bound, peer, sent, safe', bound, peer');
    forall k | 0 <= k < |v.pending|
      ensures SnapOk(v.pending[k], j, sent, safe', bound, peer')
    {
      SnapOkMore(v.pending[k], j, sent, safe, bound, peer, sent, safe', bound, peer');
    }
  }

  lemma SnapOkMore(x: Snapshot, j: nat, sent: seq<Payload>, safe: nat, bound: nat, peer: seq<Payload>,
                   sent': seq<Payload>, safe': nat, bound': nat, peer': seq<Payload>)
    requires j < |x.st.recs| == |x.logs| && SnapOk(x, j, sent, safe, bound, peer)
    requires sent <= sent' && safe <= safe' && bound <= bound' && peer <= peer'
    ensures SnapOk(x, j, sent', safe', bound', peer')
  {
    hide RecOk, LogOk;
    RecOkMore(x.st.recs[j], sent, safe, bound, sent', safe', bound');
    LogOkMore(x.logs[j], x.st.recs[j].lastMsgRcd, peer, peer');
  }

  /** A record whose saves are unchanged and whose own state is still in order. */
  lemma SideOkStep(v: Device, v': Device, j: nat, peer: seq<Payload>, safe: nat)
    requires j < |v.st.recs| && Sized(v, |v.st.recs|) && SideOk(v, j, peer, safe)
    requires |v'.st.recs| == |v.st.recs| && Sized(v', |v.st.recs|)
    requires v'.durable == v.durable && v'.pending == v.pending && v.sent[j] <= v'.sent[j]
    requires |v'.sent[j]| == v'.st.recs[j].nextMsgID && forall k :: 0 <= k < |v'.sent[j]| ==> v'.sent[j][k] != []
    requires RecOk(v'.st.recs[j], v'.sent[j], safe, Rcd(v, j))
    requires LogOk(v'.logs[j], v'.st.recs[j].lastMsgRcd, peer)
    requires v'.st.recs[j].lastMsgRcd >= v.st.recs[j].lastMsgRcd && v'.st.recs[j].lastMsgSaved <= Rcd(v, j)
    ensures SideOk(v', j, peer, safe)
  {
    hide RecOk, LogOk;
    var sent, bound := v.sent[j], Rcd(v, j);
    SnapOkMore(v.durable, j, sent, safe, bound, peer, v'.sent[j], safe, bound, peer);
    forall k | 0 <= k < |v'.pending|
      ensures SnapOk(v'.pending[k], j, v'.sent[j], safe, bound, peer)
    {
      SnapOkMore(v.pending[k], j, sent, safe, bound, peer, v'.sent[j], safe, bound, peer);
    }
  }

  lemma DeviceState(v: Device)
    requires DeviceOk(v)
    ensures StateOk(v.st)
  {}

  lemma SendEvolves(v: Device, j: nat, payload: Payload)
    requires DeviceOk(v) && Sized(v, |v.st.recs|) && j < |v.st.recs| && payload != []
    ensures Evolves(v, AfterSend(v, j, payload))
  {
    hide QueueRun, OwnElems, ChannelsOk;
    SendEffect(v.st, j, v.st.recs[j].channelNo, payload);
  }

  lemma SendKeeps(v: Device, j: nat, payload: Payload, peers: seq<seq<Payload>>, safes: seq<nat>)
    requires DeviceOk(v) && AllSides(v, peers, safes) && j < |v.st.recs| && payload != []
    ensures Evolves(v, AfterSend(v, j, payload)) && AllSides(AfterSend(v, j, payload), peers, safes)
  {
    hide RecOk, LogOk, QueueRun, OwnElems, ChannelsOk, DeviceOk, Evolves, SideOk, AfterSend;
    SendEvolves(v, j, payload);
    SizedSend(v, j, payload);
    forall i | 0 <= i < |peers|
      ensures SideOk(AfterSend(v, j, payload), i, peers[i], safes[i])
    {
      SendSide(v, j, payload, i, peers[i], safes[i]);
    }
  }

  lemma SizedSend(v: Device, j: nat, payload: Payload)
    requires DeviceOk(v) && Sized(v, |v.st.recs|) && j < |v.st.recs| && payload != []
    ensures Sized(AfterSend(v, j, payload), |v.st.recs|)
  {
    hide DeviceOk;
    DeviceState(v);
    SendEffect(v.st, j, v.st.recs[j].channelNo, payload);
  }

  lemma SendSide(v: Device, j: nat, payload: Payload, i: nat, peer: seq<Payload>, safe: nat)
    requires DeviceOk(v) && Sized(v, |v.st.recs|) && j < |v.st.recs| && payload != [] && i < |v.st.recs| && SideOk(v, i, peer, safe)
    ensures Sized(AfterSend(v, j, payload), |v.st.recs|) && SideOk(AfterSend(v, j, payload), i, peer, safe)
  {
    hide RecOk, LogOk, QueueRun, OwnElems, ChannelsOk, DeviceOk, SnapOk, Send;
    var v' := AfterSend(v, j, payload);
    DeviceState(v);
    SendEffect(v.st, j, v.st.recs[j].channelNo, payload);
    if i == j {
      RecordIsOk(v'.st, j);
      RecOkSend(v.st.recs[j], v'.st.recs[j], payload, v.sent[j], safe, Rcd(v, j));
    }
    SideOkStep(v, v', i, peer, safe);
  }

  lemma DeliverKeeps(v: Device, j: nat, elem: Elem, rejected: bool, peers: seq<seq<Payload>>, safes: seq<nat>)
    requires DeviceOk(v) && AllSides(v, peers, safes) && j < |v.st.recs|
    requires Masked(elem.channelNo) == Masked(v.st.recs[j].channelNo)
    requires ElemOk(elem, peers[j], |peers[j]|, safes[j])
    ensures Evolves(v, AfterDeliver(v, j, elem, rejected)) && AllSides(AfterDeliver(v, j, elem, rejected), peers, safes)
  {
    hide SideOk, QueueRun, OwnElems, ChannelsOk, Masked, Receive, Touched, Expected, ElemOk;
    var v' := AfterDeliver(v, j, elem, rejected);
    ReceiveEffect(v.st, j, elem, rejected);
    ExpectedNext(v.st, j, elem);
    forall i | 0 <= i < |peers|
      ensures SideOk(v', i, peers[i], safes[i]) && v'.st.recs[i].channelNo == v.st.recs[i].channelNo
    {
      DeliverSide(v, j, elem, rejected, i, peers[i], safes[i]);
    }
    assert v'.st.lastSaveToken != 0 ==> forall i :: 0 <= i < |peers| ==> v'.st.recs[i].lastMsgRcd == v.st.recs[i].lastMsgRcd;
  }

  lemma ExpectedNext(st: State, j: nat, elem: Elem)
    requires j < |st.recs|
    ensures Expected(st, elem) == Some(j) ==> elem.msgID != 0 && elem.msgID == st.recs[j].lastMsgRcd + 1
  {}

  lemma DeliverSide(v: Device, j: nat, elem: Elem, rejected: bool, i: nat, peer: seq<Payload>, safe: nat)
    requires StateOk(v.st) && j < |v.st.recs| && i < |v.st.recs| && Sized(v, |v.st.recs|) && SideOk(v, i, peer, safe)
    requires Received(v.st, AfterDeliver(v, j, elem, rejected).st, j, elem, rejected)
    requires i == j ==> ElemOk(elem, peer, |peer|, safe)
    ensures SideOk(AfterDeliver(v, j, elem, rejected), i, peer, safe)
    ensures AfterDeliver(v, j, elem, rejected).st.recs[i].channelNo == v.st.recs[i].channelNo
  {
    hide RecOk, QueueRun, OwnElems, ChannelsOk, LogOk, Masked, Receive, Touched, NonAcks, Expected;
    var v' := AfterDeliver(v, j, elem, rejected);
    var before, after := v.st.recs[i], v'.st.recs[i];
    var ack := if i == j then elem.ack else 0;
    ExpectedNext(v.st, j, elem);
    TouchedFixed(before, after, ack);
    RecOkTouched(before, after, ack, v.sent[i], safe, Rcd(v, i));
    var taken := i == j && Expected(v.st, elem) == Some(j) && !rejected;
    LogTaken(v.logs[i], v'.logs[i], before.lastMsgRcd, elem, peer, taken);
    SideOkStep(v, v', i, peer, safe);
  }

  lemma TouchedFixed(before: Rec, after: Rec, ack: nat)
    requires Touched(before, after, ack)
    ensures after.channelNo == before.channelNo && after.nextMsgID == before.nextMsgID
  {}

  lemma LogTaken(log: seq<Payload>, log': seq<Payload>, rcd: nat, elem: Elem, peer: seq<Payload>, taken: bool)
    requires LogOk(log, rcd, peer)
    requires taken ==> elem.msgID == rcd + 1 && elem.msgID <= |peer| && elem.payload == peer[elem.msgID - 1]
    requires log' == if taken then log + [elem.payload] else log
    ensures LogOk(log', if taken then elem.msgID else rcd, peer)
  {
    if taken {
      assert peer[..rcd + 1] == peer[..rcd] + [peer[rcd]];
    }
  }

  lemma WriteKeeps(v: Device, token: nat, peers: seq<seq<Payload>>, safes: seq<nat>)
    requires DeviceOk(v) && AllSides(v, peers, safes) && token != 0 && token !in v.used
    ensures Evolves(v, AfterWrite(v, token)) && AllSides(AfterWrite(v, token), peers, safes)
  {
    hide RecOk, LogOk, QueueRun, OwnElems, ChannelsOk, SideOk;
    var v' := AfterWrite(v, token);
    forall i | 0 <= i < |peers|
      ensures SideOk(v', i, peers[i], safes[i])
    {
      assert SideOk(v, i, peers[i], safes[i]);
      WriteSide(v, token, i, peers[i], safes[i]);
    }
  }

  lemma WriteSide(v: Device, token: nat, i: nat, peer: seq<Payload>, safe: nat)
    requires DeviceOk(v) && Sized(v, |v.st.recs|) && i < |v.st.recs| && SideOk(v, i, peer, safe) && token != 0 && token !in v.used
    ensures Sized(AfterWrite(v, token), |v.st.recs|) && |AfterWrite(v, token).st.recs| == |v.st.recs|
    ensures SideOk(AfterWrite(v, token), i, peer, safe)
  {
    hide RecOk, LogOk, QueueRun, OwnElems, ChannelsOk;
  }

  lemma CommitKeeps(v: Device, k: nat, peers: seq<seq<Payload>>, safes: seq<nat>)
    requires DeviceOk(v) && AllSides(v, peers, safes) && k < |v.pending|
    ensures Evolves(v, AfterCommit(v, k)) && AllSides(AfterCommit(v, k), peers, safes)
  {
    hide RecOk, LogOk, QueueRun, OwnElems, ChannelsOk;
    var v' := AfterCommit(v, k);
    forall i | 0 <= i < |peers|
      ensures SideOk(v', i, peers[i], safes[i]) && Rcd(v, i) <= Rcd(v', i)
    {
      CommitSide(v, k, i, peers[i], safes[i]);
    }
    CommitTokens(v, k);
  }

  lemma CommitSide(v: Device, k: nat, i: nat, peer: seq<Payload>, safe: nat)
    requires i < |v.st.recs| && Sized(v, |v.st.recs|) && SideOk(v, i, peer, safe) && k < |v.pending|
    ensures SideOk(AfterCommit(v, k), i, peer, safe) && Rcd(v, i) <= Rcd(AfterCommit(v, k), i)
  {
    hide RecOk, LogOk;
    var v' := AfterCommit(v, k);
    var sent, bound, bound' := v.sent[i], Rcd(v, i), Rcd(v', i);
    RecOkMore(v.st.recs[i], sent, safe, bound, sent, safe, bound');
    SnapOkMore(v.pending[k], i, sent, safe, bound, peer, sent, safe, bound', peer);
    forall l | 0 <= l < |v'.pending|
      ensures SnapOk(v'.pending[l], i, sent, safe, bound', peer)
    {
      SnapOkMore(v.pending[k + 1 + l], i, sent, safe, bound, peer, sent, safe, bound', peer);
    }
  }

  lemma CommitTokens(v: Device, k: nat)
    requires TokensOk(v) && k < |v.pending|
    ensures TokensOk(AfterCommit(v, k))
  {
    var v' := AfterCommit(v, k);
    assert Newest(v') == Newest(v);
  }

  lemma NotifyKeeps(v: Device, token: nat, peers: seq<seq<Payload>>, safes: seq<nat>)
    requires DeviceOk(v) && AllSides(v, peers, safes) && token in v.committed
    ensures Evolves(v, AfterNotify(v, token)) && AllSides(AfterNotify(v, token), peers, safes)
  {
    hide RecOk, LogOk, QueueRun, OwnElems, ChannelsOk, NonAcks, SaveSucceeded;
    var v' := AfterNotify(v, token);
    SavedEffect(v.st, token);
    if token == v.st.lastSaveToken {
      assert v.pending == [];
    }
    forall i | 0 <= i < |peers|
      ensures SideOk(v', i, peers[i], safes[i]) && v'.st.recs[i].channelNo == v.st.recs[i].channelNo
              && v'.st.recs[i].lastMsgRcd == v.st.recs[i].lastMsgRcd
    {
      assert SideOk(v, i, peers[i], safes[i]);
      var saved := if token == v.st.lastSaveToken then v.st.recs[i].lastMsgRcd else v.st.recs[i].lastMsgSaved;
      var mid := v.st.recs[i].(lastMsgSaved := saved);
      RecOkCounters(v.st.recs[i], mid, v.sent[i], safes[i], Rcd(v, i));
      AckAddedFixed(mid, v'.st.recs[i]);
      RecOkAckAdded(mid, v'.st.recs[i], v.sent[i], safes[i], Rcd(v, i));
      SideOkStep(v, v', i, peers[i], safes[i]);
    }
  }

  lemma AckAddedFixed(before: Rec, after: Rec)
    requires AckAdded(before, after)
    ensures after.channelNo == before.channelNo && after.nextMsgID == before.nextMsgID
    ensures after.lastMsgRcd == before.lastMsgRcd && after.lastMsgSaved == before.lastMsgSaved
  {}

  lemma CrashKeeps(v: Device, peers: seq<seq<Payload>>, safes: seq<nat>)
    requires DeviceOk(v) && AllSides(v, peers, safes) && SendsSaved(v)
    ensures Evolves(v, AfterCrash(v)) && AllSides(AfterCrash(v), peers, safes)
  {
    hide RecOk, LogOk, QueueRun, OwnElems, ChannelsOk, NonAcks, Loaded, Written;
    var v' := AfterCrash(v);
    SaveLoad(v.durable.st);
    RestartOk(v.durable.st);
    forall i | 0 <= i < |peers|
      ensures SideOk(v', i, peers[i], safes[i]) && v'.st.recs[i].channelNo == v.st.recs[i].channelNo
    {
      assert SideOk(v, i, peers[i], safes[i]);
      RecOkRestarted(v.durable.st.recs[i], v.sent[i], safes[i], Rcd(v, i));
    }
  }
}
