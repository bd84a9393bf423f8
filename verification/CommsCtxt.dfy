/** comms.c's records and queues as the mutable objects they are.  Every method is tied to the
    value function of CommsState that says what it makes of the whole device. */
module CommsObjects {
  import opened Wrappers
  import opened CommsState
  import opened CommsQueue

  class AddressRecord {
    var channelNo: nat
    var nextMsgID: nat
    var lastMsgAckd: nat
    var lastMsgRcd: nat
    var lastMsgSaved: nat
    var queue: seq<Elem>

    constructor (s: SavedRec)
      ensures View() == LoadedRec(s)
    {
      channelNo, nextMsgID, lastMsgAckd := s.channelNo, s.nextMsgID, s.lastMsgAckd;
      lastMsgRcd, lastMsgSaved, queue := s.lastMsgRcd, s.lastMsgRcd, [];
    }

    ghost function View(): Rec
      reads this
    {
      Rec(channelNo, nextMsgID, lastMsgAckd, lastMsgRcd, lastMsgSaved, queue)
    }
  }

  ghost function Views(rs: seq<AddressRecord>): (v: seq<Rec>)
    reads rs
    ensures |v| == |rs| && forall i :: 0 <= i < |rs| ==> v[i] == rs[i].View()
  {
    seq(|rs|, i requires 0 <= i < |rs| reads rs => rs[i].View())
  }

  ghost predicate Distinct(rs: seq<AddressRecord>) {
    forall i, j :: 0 <= i < j < |rs| ==> rs[i] != rs[j]
  }

  class CommsCtxt {
    var recs: seq<AddressRecord>
    var queueLen: nat
    var lastSaveToken: nat

    ghost predicate Valid()
      reads this
    {
      Distinct(recs)
    }

    ghost function View(): State
      reads this, recs
    {
      State(Views(recs), queueLen, lastSaveToken)
    }

    /** Only record `i` has changed. */
    twostate lemma OneChanged(i: nat)
      requires recs == old(recs) && i < |recs| && Distinct(recs)
      requires forall j :: 0 <= j < |recs| && j != i ==> recs[j].View() == old(recs[j].View())
      ensures Views(recs) == old(Views(recs))[i := recs[i].View()]
    {}

    /** getRecordFor. */
    method GetRecordFor(channelNo: nat) returns (i: Option<nat>)
      ensures i == RecordFor(Views(recs), channelNo, 0)
    {
      var k := 0;
      while k < |recs|
        invariant k <= |recs|
        invariant RecordFor(Views(recs), channelNo, 0) == RecordFor(Views(recs), channelNo, k)
      {
        if Matches(recs[k].channelNo, channelNo) { return Some(k); }
        k := k + 1;
      }
      return None;
    }

    /** makeElemWithID: the header quotes lastMsgSaved, and the record remembers having done so. */
    method MakeElemWithID(i: nat, msgID: nat, channelNo: nat, payload: Payload) returns (e: Elem)
      requires Valid() && i < |recs|
      modifies recs[i]
      ensures e == Elem(channelNo, msgID, old(recs[i].lastMsgSaved), payload)
      ensures View() == old(View()).(recs := old(View()).recs[i := old(recs[i].View()).(lastMsgAckd := e.ack)])
    {
      var rec := recs[i];
      e := Elem(channelNo, msgID, rec.lastMsgSaved, payload);
      rec.lastMsgAckd := rec.lastMsgSaved;
      OneChanged(i);
    }

    method AppendTo(i: nat, e: Elem)
      requires Valid() && i < |recs|
      modifies recs[i], `queueLen
      ensures View() == (var q := Enqueue(old(recs[i].queue), e);
                         old(View()).(recs := old(View()).recs[i := old(recs[i].View()).(queue := q)],
                                      queueLen := old(queueLen) + |q| - |old(recs[i].queue)|))
    {
      var rec := recs[i];
      if rec.queue == [] || rec.queue[|rec.queue| - 1] != e {
        rec.queue := rec.queue + [e];
        queueLen := queueLen + 1;
      }
      OneChanged(i);
    }

    /** addToQueue. */
    method AddToQueue(e: Elem)
      requires Valid()
      modifies recs, `queueLen
      ensures View() == CommsState.AddToQueue(old(View()), e)
    {
      var i := GetRecordFor(e.channelNo);
      if i.Some? {
        AppendTo(i.value, e);
      }
    }

    /** makeElemWithID, then addToQueue on the record it was made for. */
    method Post(i: nat, msgID: nat, channelNo: nat, payload: Payload)
      requires Valid() && i < |recs|
      modifies recs[i], `queueLen
      ensures View() == CommsState.Post(old(View()), i, msgID, channelNo, payload)
    {
      var e := MakeElemWithID(i, msgID, channelNo, payload);
      AppendTo(i, e);
      assert View().recs == old(View()).recs[i := recs[i].View()];
    }

    /** A message is numbered. */
    method NextNumber(i: nat) returns (msgID: nat)
      requires Valid() && i < |recs|
      modifies recs[i]
      ensures msgID == old(recs[i].nextMsgID) + 1
      ensures View() == old(View()).(recs := old(View()).recs[i := old(recs[i].View()).(nextMsgID := msgID)])
    {
      var rec := recs[i];
      rec.nextMsgID := rec.nextMsgID + 1;
      msgID := rec.nextMsgID;
      OneChanged(i);
    }

    /** comms_send on an established channel; nothing is queued for an empty message. */
    method Send(channelNo: nat, payload: Payload)
      requires Valid()
      modifies recs, `queueLen
      ensures View() == CommsState.Send(old(View()), channelNo, payload)
    {
      hide RecordFor, Enqueue, CommsState.Post;
      if payload == [] { return; }
      var i := GetRecordFor(channelNo);
      if i.Some? {
        var msgID := NextNumber(i.value);
        Post(i.value, msgID, channelNo, payload);
      }
    }

    /** forEachElem with removeProc, on one record. */
    method TrimQueue(i: nat, channelNo: nat, msgID: nat)
      requires Valid() && i < |recs| && |recs[i].queue| <= queueLen
      modifies recs[i], `queueLen
      ensures recs[i].View() == old(recs[i].View()).(queue := Keep(old(recs[i].queue), channelNo, msgID))
      ensures queueLen == old(queueLen) - |old(recs[i].queue)| + |recs[i].queue|
    {
      var rec := recs[i];
      var k := 0;
      while k < |rec.queue|
        invariant k <= |rec.queue| <= queueLen
        invariant rec.queue[..k] + Keep(rec.queue[k..], channelNo, msgID) == Keep(old(recs[i].queue), channelNo, msgID)
        invariant queueLen == old(queueLen) - |old(recs[i].queue)| + |rec.queue|
        invariant rec.View() == old(rec.View()).(queue := rec.queue)
        decreases |rec.queue| - k
      {
        KeepStep(rec.queue, k, channelNo, msgID);
        if Acked(rec.queue[k], channelNo, msgID) {
          rec.queue := rec.queue[..k] + rec.queue[k + 1..];
          queueLen := queueLen - 1;
        } else {
          k := k + 1;
        }
      }
      assert rec.queue[..k] == rec.queue && rec.queue[k..] == [];
    }

    /** removeFromQueue. */
    method RemoveFromQueue(channelNo: nat, msgID: nat)
      requires Valid() && queueLen == QueueTotal(Views(recs))
      modifies recs, `queueLen
      ensures View() == CommsState.RemoveFromQueue(old(View()), channelNo, msgID)
    {
      hide Keep, QueueTotal, RecordFor;
      var found := GetRecordFor(channelNo);
      if channelNo != 0 && found.None? { return; }
      var k := 0;
      ghost var before := Views(recs);
      while k < |recs|
        invariant k <= |recs| && queueLen == QueueTotal(Views(recs))
        invariant forall j :: 0 <= j < k ==> recs[j].View() == before[j].(queue := Keep(before[j].queue, channelNo, msgID))
        invariant forall j :: k <= j < |recs| ==> recs[j].View() == before[j]
      {
        label L:
        QueueWithin(Views(recs), k);
        TrimQueue(k, channelNo, msgID);
        OneChanged@L(k);
        TotalUpdate(old@L(Views(recs)), k, recs[k].View());
        k := k + 1;
      }
      assert Views(recs) == KeepRecs(before, channelNo, msgID);
    }

    /** ackAnyImpl. */
    method AckAny(force: bool)
      requires Valid()
      modifies recs, `queueLen
      ensures View() == CommsState.AckAny(old(View()), force, 0)
    {
      var i := 0;
      while i < |recs|
        invariant i <= |recs| && CommsState.AckAny(View(), force, i) == CommsState.AckAny(old(View()), force, 0)
        invariant lastSaveToken == old(lastSaveToken)
      {
        var rec := recs[i];
        if force || rec.lastMsgAckd < rec.lastMsgRcd {
          Post(i, 0, rec.channelNo, []);  // sendEmptyMsg: a bare ACK
        }
        i := i + 1;
      }
    }

    /** comms_saveSucceeded. */
    method SaveSucceeded(token: nat)
      requires Valid()
      modifies recs, `queueLen
      ensures View() == CommsState.SaveSucceeded(old(View()), token)
    {
      if token == lastSaveToken {
        ghost var before := View();
        var i := 0;
        while i < |recs|
          invariant i <= |recs| && queueLen == before.queueLen
          invariant forall j :: 0 <= j < i ==> recs[j].View() == before.recs[j].(lastMsgSaved := before.recs[j].lastMsgRcd)
          invariant forall j :: i <= j < |recs| ==> recs[j].View() == before.recs[j]
        {
          recs[i].lastMsgSaved := recs[i].lastMsgRcd;
          i := i + 1;
        }
        assert View().recs == seq(|before.recs|, i requires 0 <= i < |before.recs| =>
                                    before.recs[i].(lastMsgSaved := before.recs[i].lastMsgRcd));
        AckAny(false);
      }
    }

    /** validateChannelMessage: the record, if the packet is the next one on its channel. */
    method ValidateChannelMessage(e: Elem) returns (r: Option<nat>)
      requires Valid() && queueLen == QueueTotal(Views(recs))
      modifies recs, `queueLen
      ensures var i := RecordFor(old(Views(recs)), e.channelNo, 0);
              if i.None? then r == None && View() == old(View())
              else
                var st := CommsState.RemoveFromQueue(old(View()), e.channelNo, e.ack);
                var next := e.msgID != 0 && e.msgID == st.recs[i.value].lastMsgRcd + 1;
                && r == (if next then i else None)
                && View() == if next || e.msgID == 0 then st else CommsState.AckAny(st, true, 0)
    {
      r := GetRecordFor(e.channelNo);
      if r.None? { return; }
      RemoveFromQueue(e.channelNo, e.ack);
      assert recs[r.value].View() == View().recs[r.value];
      if e.msgID == 0 {
        r := None;
      } else if e.msgID != recs[r.value].lastMsgRcd + 1 {
        AckAny(true);
        r := None;
      }
    }

    /** comms_msgProcessed for a message that passed the check. */
    method MsgProcessed(i: nat, e: Elem, rejected: bool)
      requires Valid() && i < |recs|
      modifies recs[i]
      ensures View() == if !rejected && old(recs[i].lastMsgRcd) < e.msgID
                        then old(View()).(recs := old(View()).recs[i := old(recs[i].View()).(lastMsgRcd := e.msgID)])
                        else old(View())
    {
      var rec := recs[i];
      if !rejected && rec.lastMsgRcd < e.msgID {
        rec.lastMsgRcd := e.msgID;
        OneChanged(i);
      }
    }

    /** game_receiveMessage: the check, the server's verdict on a message that passes it, and
        comms_msgProcessed. */
    method ReceiveMessage(e: Elem, rejected: bool)
      requires Valid() && queueLen == QueueTotal(Views(recs))
      modifies recs, `queueLen, `lastSaveToken
      ensures View() == Receive(old(View()), e, rejected)
    {
      hide RecordFor, CommsState.RemoveFromQueue, CommsState.AckAny, QueueTotal;
      var r := ValidateChannelMessage(e);
      if r.Some? && (recs[r.value].lastMsgRcd == 0 || recs[r.value].lastMsgRcd <= e.msgID) {
        lastSaveToken := 0;
        if e.payload != [] {
          MsgProcessed(r.value, e, rejected);
        }
      }
    }

    /** comms_writeToStream. */
    method WriteToStream(token: nat) returns (sv: Saved)
      modifies `lastSaveToken
      ensures sv == Written(old(View())) && lastSaveToken == token
    {
      var srs: seq<SavedRec>, es: seq<Elem> := [], [];
      var i := 0;
      while i < |recs|
        invariant i <= |recs| == |Views(recs)| && |srs| == i
        invariant forall j :: 0 <= j < i ==>
          srs[j] == SavedRec(recs[j].channelNo, recs[j].nextMsgID, recs[j].lastMsgRcd, recs[j].lastMsgAckd)
      {
        srs := srs + [SavedRec(recs[i].channelNo, recs[i].nextMsgID, recs[i].lastMsgRcd, recs[i].lastMsgAckd)];
        i := i + 1;
      }
      i := 0;
      while i < |recs|
        invariant i <= |recs| && es + AllNonAcks(Views(recs)[i..]) == AllNonAcks(Views(recs))
      {
        ghost var rest := Views(recs)[i..];
        assert rest[0] == recs[i].View() && rest[1..] == Views(recs)[i + 1..];
        var own := WriteElems(recs[i].queue);
        assert (es + own) + AllNonAcks(rest[1..]) == es + AllNonAcks(rest);
        es := es + own;
        i := i + 1;
      }
      assert Views(recs)[i..] == [];
      lastSaveToken := token;
      sv := Saved(srs, es);
      assert srs == Written(old(View())).recs;
    }

    /** comms_makeFromStream. */
    constructor MakeFromStream(sv: Saved)
      ensures Valid() && fresh(recs) && View() == Loaded(sv)
    {
      queueLen, lastSaveToken, recs := 0, 0, [];
      new;
      var i := 0;
      while i < |sv.recs|
        invariant i <= |sv.recs| && |recs| == i && fresh(recs) && Distinct(recs)
        invariant queueLen == 0 && lastSaveToken == 0
        invariant forall j :: 0 <= j < i ==> recs[j].View() == LoadedRec(sv.recs[j])
      {
        var rec := new AddressRecord(sv.recs[i]);
        recs := recs + [rec];
        i := i + 1;
      }
      assert View().recs == seq(|sv.recs|, i requires 0 <= i < |sv.recs| => LoadedRec(sv.recs[i]));
      ghost var start := View();
      i := 0;
      assert sv.elems[0..] == sv.elems;
      while i < |sv.elems|
        invariant i <= |sv.elems| && fresh(recs) && Distinct(recs)
        invariant AddAll(View(), sv.elems[i..]) == AddAll(start, sv.elems)
      {
        assert sv.elems[i..][1..] == sv.elems[i + 1..];
        AddToQueue(sv.elems[i]);
        i := i + 1;
      }
      assert sv.elems[i..] == [];
    }
  }

  /** elemToStream over one queue: bare ACKs are not written. */
  method WriteElems(q: seq<Elem>) returns (es: seq<Elem>)
    ensures es == NonAcks(q)
  {
    es := [];
    var i := 0;
    assert q[0..] == q;
    while i < |q|
      invariant i <= |q| && es + NonAcks(q[i..]) == NonAcks(q)
    {
      assert q[i..][1..] == q[i + 1..];
      if q[i].msgID != 0 {
        assert (es + [q[i]]) + NonAcks(q[i + 1..]) == es + ([q[i]] + NonAcks(q[i + 1..]));
        es := es + [q[i]];
      }
      i := i + 1;
    }
    assert q[i..] == [];
  }

  /** What is kept does not change when the element at `k` has been dealt with. */
  lemma KeepStep(q: seq<Elem>, k: nat, channelNo: nat, msgID: nat)
    requires k < |q|
    ensures var all := q[..k] + Keep(q[k..], channelNo, msgID);
            if Acked(q[k], channelNo, msgID) then
              var q' := q[..k] + q[k + 1..];
              q'[..k] + Keep(q'[k..], channelNo, msgID) == all
            else q[..k + 1] + Keep(q[k + 1..], channelNo, msgID) == all
  {
    assert q[k..][1..] == q[k + 1..];
    if Acked(q[k], channelNo, msgID) {
      var q' := q[..k] + q[k + 1..];
      assert q'[..k] == q[..k] && q'[k..] == q[k + 1..];
    } else {
      assert q[..k + 1] + Keep(q[k + 1..], channelNo, msgID) == q[..k] + ([q[k]] + Keep(q[k + 1..], channelNo, msgID));
    }
  }

  lemma {:induction false} QueueWithin(recs: seq<Rec>, i: nat)
    requires i < |recs|
    ensures |recs[i].queue| <= QueueTotal(recs)
  {
    if i > 0 { QueueWithin(recs[1..], i - 1); }
  }
}
