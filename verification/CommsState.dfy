/** The message queues of one device (comms.c) as values: what each operation makes of them. */
module CommsState {
  import opened Wrappers

  type Payload = seq<int>

  const CHANNEL_MASK: nat := 3

  /** A queued packet.  Its header carries the channel, its number (0 for a bare ACK) and the
      highest number of the peer's that had been saved when it was made. */
  datatype Elem = Elem(channelNo: nat, msgID: nat, ack: nat, payload: Payload)

  datatype Rec = Rec(channelNo: nat, nextMsgID: nat, lastMsgAckd: nat, lastMsgRcd: nat, lastMsgSaved: nat, queue: seq<Elem>)

  /** `lastSaveToken` 0 means that no save under way would cover the present state. */
  datatype State = State(recs: seq<Rec>, queueLen: nat, lastSaveToken: nat)

  /** A channel number without its low bits. */
  function Masked(channelNo: nat): nat { channelNo / (CHANNEL_MASK + 1) }

  /** getRecordFor's test. */
  predicate Matches(recChannel: nat, channelNo: nat) {
    if Masked(recChannel) == 0 && Masked(channelNo) == 0 then recChannel == channelNo
    else Masked(recChannel) == Masked(channelNo)
  }

  /** getRecordFor: the first record that matches, from index `from` on. */
  function RecordFor(recs: seq<Rec>, channelNo: nat, from: nat): (i: Option<nat>)
    requires from <= |recs|
    ensures i.Some? ==> from <= i.value < |recs| && Matches(recs[i.value].channelNo, channelNo)
    ensures forall j :: from <= j < (if i.Some? then i.value else |recs|) ==> !Matches(recs[j].channelNo, channelNo)
    decreases |recs| - from
  {
    if from == |recs| then None
    else if Matches(recs[from].channelNo, channelNo) then Some(from)
    else RecordFor(recs, channelNo, from + 1)
  }

  /** addToQueue for a record's own element: not added if the last one is the same. */
  function Enqueue(q: seq<Elem>, e: Elem): seq<Elem> {
    if q != [] && q[|q| - 1] == e then q else q + [e]
  }

  /** Put one new packet on record `i`; the header quotes lastMsgSaved. */
  function Post(st: State, i: nat, msgID: nat, channelNo: nat, payload: Payload): State
    requires i < |st.recs|
  {
    var rec := st.recs[i];
    var e := Elem(channelNo, msgID, rec.lastMsgSaved, payload);
    var q := Enqueue(rec.queue, e);
    st.(recs := st.recs[i := rec.(lastMsgAckd := rec.lastMsgSaved, queue := q)], queueLen := st.queueLen + |q| - |rec.queue|)
  }

  /** comms_send on an established channel. */
  function Send(st: State, channelNo: nat, payload: Payload): State {
    var i := RecordFor(st.recs, channelNo, 0);
    if payload == [] || i.None? then st
    else
      var rec := st.recs[i.value];
      Post(st.(recs := st.recs[i.value := rec.(nextMsgID := rec.nextMsgID + 1)]), i.value, rec.nextMsgID + 1, channelNo, payload)
  }

  /** removeProc: is the element acknowledged by `msgID` on `channelNo`? */
  predicate Acked(e: Elem, channelNo: nat, msgID: nat) {
    var knownGood := !(Masked(e.channelNo) == 0 && channelNo != 0) && Masked(e.channelNo) != Masked(channelNo);
    !knownGood && e.msgID <= msgID
  }

  function Keep(q: seq<Elem>, channelNo: nat, msgID: nat): (r: seq<Elem>)
    ensures |r| <= |q|
  {
    if q == [] then []
    else (if Acked(q[0], channelNo, msgID) then [] else [q[0]]) + Keep(q[1..], channelNo, msgID)
  }

  function QueueTotal(recs: seq<Rec>): nat {
    if recs == [] then 0 else |recs[0].queue| + QueueTotal(recs[1..])
  }

  function KeepRecs(recs: seq<Rec>, channelNo: nat, msgID: nat): (r: seq<Rec>)
    ensures |r| == |recs|
    ensures forall i :: 0 <= i < |recs| ==> r[i] == recs[i].(queue := Keep(recs[i].queue, channelNo, msgID))
  {
    seq(|recs|, i requires 0 <= i < |recs| => recs[i].(queue := Keep(recs[i].queue, channelNo, msgID)))
  }

  /** removeFromQueue: forEachElem visits the elements of every record. */
  function RemoveFromQueue(st: State, channelNo: nat, msgID: nat): State
    requires st.queueLen == QueueTotal(st.recs)
  {
    if channelNo == 0 || RecordFor(st.recs, channelNo, 0).Some? then
      var recs := KeepRecs(st.recs, channelNo, msgID);
      st.(recs := recs, queueLen := QueueTotal(recs))
    else st
  }

  /** ackAnyImpl from record `i` on: a bare ACK for each record that is owed one, or for all. */
  function AckAny(st: State, force: bool, i: nat): (r: State)
    requires i <= |st.recs|
    ensures |r.recs| == |st.recs|
    decreases |st.recs| - i
  {
    if i == |st.recs| then st
    else
      var rec := st.recs[i];
      var st' := if force || rec.lastMsgAckd < rec.lastMsgRcd then Post(st, i, 0, rec.channelNo, []) else st;
      AckAny(st', force, i + 1)
  }

  /** The record that takes the message, after the queues have been trimmed. */
  function Expected(st: State, e: Elem): Option<nat> {
    var i := RecordFor(st.recs, e.channelNo, 0);
    if i.Some? && e.msgID != 0 && e.msgID == st.recs[i.value].lastMsgRcd + 1 && e.payload != [] then i else None
  }

  /** game_receiveMessage with a packet for this game: comms_checkIncomingStream, the server's
      verdict, comms_msgProcessed. */
  function Receive(st: State, e: Elem, rejected: bool): (r: State)
    requires st.queueLen == QueueTotal(st.recs)
    ensures |r.recs| == |st.recs|
  {
    var i := RecordFor(st.recs, e.channelNo, 0);
    if i.None? then st
    else
      var st' := RemoveFromQueue(st, e.channelNo, e.ack);
      var rec := st'.recs[i.value];
      if e.msgID == 0 then st'
      else if e.msgID != rec.lastMsgRcd + 1 then AckAny(st', true, 0)
      else
        var st'' := st'.(lastSaveToken := 0);
        if e.payload == [] || rejected then st''
        else st''.(recs := st'.recs[i.value := rec.(lastMsgRcd := e.msgID)])
  }

  /** comms_saveSucceeded. */
  function SaveSucceeded(st: State, token: nat): (r: State)
    ensures |r.recs| == |st.recs|
  {
    if token == st.lastSaveToken then
      AckAny(st.(recs := seq(|st.recs|, i requires 0 <= i < |st.recs| => st.recs[i].(lastMsgSaved := st.recs[i].lastMsgRcd))),
             false, 0)
    else st
  }

  /** What comms_writeToStream puts on the stream: the counters, then the queued packets. */
  datatype SavedRec = SavedRec(channelNo: nat, nextMsgID: nat, lastMsgRcd: nat, lastMsgAckd: nat)
  datatype Saved = Saved(recs: seq<SavedRec>, elems: seq<Elem>)

  /** elemToStream leaves out bare ACKs. */
  function NonAcks(q: seq<Elem>): (r: seq<Elem>)
    ensures |r| <= |q|
  {
    if q == [] then [] else (if q[0].msgID == 0 then [] else [q[0]]) + NonAcks(q[1..])
  }

  function AllNonAcks(recs: seq<Rec>): seq<Elem> {
    if recs == [] then [] else NonAcks(recs[0].queue) + AllNonAcks(recs[1..])
  }

  function Written(st: State): Saved {
    Saved(seq(|st.recs|, i requires 0 <= i < |st.recs| =>
            SavedRec(st.recs[i].channelNo, st.recs[i].nextMsgID, st.recs[i].lastMsgRcd, st.recs[i].lastMsgAckd)),
          AllNonAcks(st.recs))
  }

  function LoadedRec(s: SavedRec): Rec {
    Rec(s.channelNo, s.nextMsgID, s.lastMsgAckd, s.lastMsgRcd, s.lastMsgRcd, [])
  }

  /** comms_makeFromStream: records first, then addToQueue for each packet. */
  function Loaded(sv: Saved): State {
    AddAll(State(seq(|sv.recs|, i requires 0 <= i < |sv.recs| => LoadedRec(sv.recs[i])), 0, 0), sv.elems)
  }

  function AddToQueue(st: State, e: Elem): State {
    var i := RecordFor(st.recs, e.channelNo, 0);
    if i.None? then st
    else
      var q := Enqueue(st.recs[i.value].queue, e);
      st.(recs := st.recs[i.value := st.recs[i.value].(queue := q)], queueLen := st.queueLen + |q| - |st.recs[i.value].queue|)
  }

  function AddAll(st: State, es: seq<Elem>): State
    decreases |es|
  {
    if es == [] then st else AddAll(AddToQueue(st, es[0]), es[1..])
  }
}
