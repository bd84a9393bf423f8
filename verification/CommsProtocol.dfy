/** A host and its guests exchanging numbered packets over a network that may lose, repeat, delay
    and reorder them, while each device saves its state now and then and may be restarted from the
    last state saved (comms.c; the receive step is game.c's game_receiveMessage). */
module CommsProtocol {
  import opened Wrappers
  import opened CommsState
  import opened CommsQueue
  import opened CommsKeep

  /** What a save writes: the queues' state and the game's record of messages taken. */
  datatype Snapshot = Snapshot(token: nat, st: State, logs: seq<seq<Payload>>)

  /** `pending` are saves begun and not yet on disk, oldest first; `durable` is the one on disk.
      `committed` are the tokens of saves that reached the disk, `used` all tokens so far.
      `sent` is history: every message numbered on each record, never rolled back. */
  datatype Device = Device(st: State, logs: seq<seq<Payload>>, pending: seq<Snapshot>, durable: Snapshot,
                           committed: set<nat>, used: set<nat>, sent: seq<seq<Payload>>)

  /** One side of a channel: record `rec` of device `dev`.  Device 0 is the host. */
  datatype End = End(dev: nat, rec: nat)

  datatype Packet = Packet(from: End, elem: Elem)

  datatype World = World(devs: seq<Device>, net: set<Packet>)

  function Other(e: End): End {
    if e.dev == 0 then End(e.rec + 1, 0) else End(0, e.dev - 1)
  }

  /** The host has one record for each guest, a guest one for the host. */
  predicate ValidEnd(w: World, e: End) {
    if e.dev == 0 then e.rec + 1 < |w.devs| else e.dev < |w.devs| && e.rec == 0
  }

  predicate Shape(w: World) {
    && 2 <= |w.devs|
    && forall d :: 0 <= d < |w.devs| ==> Sized(w.devs[d], if d == 0 then |w.devs| - 1 else 1)
  }

  predicate Sized(v: Device, n: nat) {
    && |v.st.recs| == |v.logs| == |v.sent| == n
    && |v.durable.st.recs| == |v.durable.logs| == n
    && forall k :: 0 <= k < |v.pending| ==> |v.pending[k].st.recs| == |v.pending[k].logs| == n
  }

  // ----- steps ------------------------------------------------------------------------------

  datatype Step =
    | SendStep(e: End, payload: Payload)
    | TransmitStep(e: End, k: nat)
    | DeliverStep(p: Packet, rejected: bool)
    | WriteStep(d: nat, token: nat)
    | CommitStep(d: nat, k: nat)
    | NotifyStep(d: nat, token: nat)
    | CrashStep(d: nat)

  /** comms_send: number the message and queue it. */
  function AfterSend(v: Device, j: nat, payload: Payload): Device
    requires j < |v.st.recs| == |v.sent|
  {
    v.(st := Send(v.st, v.st.recs[j].channelNo, payload), sent := v.sent[j := v.sent[j] + [payload]])
  }

  /** game_receiveMessage; an accepted message goes into the game, and so into its next save. */
  function AfterDeliver(v: Device, j: nat, elem: Elem, rejected: bool): Device
    requires j < |v.st.recs| == |v.logs| && v.st.queueLen == QueueTotal(v.st.recs)
  {
    var taken := Expected(v.st, elem) == Some(j) && !rejected;
    v.(st := Receive(v.st, elem, rejected),
       logs := if taken then v.logs[j := v.logs[j] + [elem.payload]] else v.logs)
  }

  /** comms_writeToStream with a fresh token. */
  function AfterWrite(v: Device, token: nat): Device {
    var st := v.st.(lastSaveToken := token);
    v.(st := st, pending := v.pending + [Snapshot(token, st, v.logs)], used := v.used + {token})
  }

  /** Save `k` reaches the disk; older ones no longer can. */
  function AfterCommit(v: Device, k: nat): Device
    requires k < |v.pending|
  {
    v.(durable := v.pending[k], pending := v.pending[k + 1..], committed := v.committed + {v.pending[k].token})
  }

  function AfterNotify(v: Device, token: nat): Device {
    v.(st := SaveSucceeded(v.st, token))
  }

  /** The device is started again from its last save. */
  function AfterCrash(v: Device): Device {
    v.(st := Loaded(Written(v.durable.st)), logs := v.durable.logs, pending := [])
  }

  /** Every message this device has numbered is in its last save. */
  predicate SendsSaved(v: Device) {
    |v.durable.st.recs| == |v.st.recs| &&
    forall j :: 0 <= j < |v.st.recs| ==> v.durable.st.recs[j].nextMsgID == v.st.recs[j].nextMsgID
  }

  /** May the step be taken?  A packet may leave at any time while it is queued (a first sending
      or any resend), and may arrive any number of times or never. */
  predicate Enabled(w: World, s: Step)
    requires Shape(w)
  {
    match s
    case SendStep(e, payload) => ValidEnd(w, e) && payload != []
    case TransmitStep(e, k) => ValidEnd(w, e) && k < |w.devs[e.dev].st.recs[e.rec].queue|
    case DeliverStep(p, _) => p in w.net && ValidEnd(w, p.from)
    case WriteStep(d, token) => d < |w.devs| && token != 0 && token !in w.devs[d].used
    case CommitStep(d, k) => d < |w.devs| && k < |w.devs[d].pending|
    case NotifyStep(d, token) => d < |w.devs| && token in w.devs[d].committed
    case CrashStep(d) => d < |w.devs|
  }

  /** No device is restarted before the messages it has numbered are in its last save. */
  predicate Careful(w: World, s: Step)
    requires Shape(w) && Enabled(w, s)
  {
    s.CrashStep? ==> SendsSaved(w.devs[s.d])
  }

  function Next(w: World, s: Step): World
    requires Shape(w) && Enabled(w, s)
    requires forall d :: 0 <= d < |w.devs| ==> w.devs[d].st.queueLen == QueueTotal(w.devs[d].st.recs)
  {
    match s
    case SendStep(e, payload) => w.(devs := w.devs[e.dev := AfterSend(w.devs[e.dev], e.rec, payload)])
    case TransmitStep(e, k) => w.(net := w.net + {Packet(e, w.devs[e.dev].st.recs[e.rec].queue[k])})
    case DeliverStep(p, rejected) =>
      var o := Other(p.from);
      w.(devs := w.devs[o.dev := AfterDeliver(w.devs[o.dev], o.rec, p.elem, rejected)])
    case WriteStep(d, token) => w.(devs := w.devs[d := AfterWrite(w.devs[d], token)])
    case CommitStep(d, k) => w.(devs := w.devs[d := AfterCommit(w.devs[d], k)])
    case NotifyStep(d, token) => w.(devs := w.devs[d := AfterNotify(w.devs[d], token)])
    case CrashStep(d) => w.(devs := w.devs[d := AfterCrash(w.devs[d])])
  }

  // ----- the invariant ----------------------------------------------------------------------

  /** A packet is a bare ACK or one of the first `n` messages, unaltered; it quotes no number
      beyond `bound`. */
  ghost predicate ElemOk(x: Elem, sent: seq<Payload>, n: nat, bound: nat) {
    && x.ack <= bound && n <= |sent|
    && (x.msgID != 0 ==> x.msgID <= n && x.payload == sent[x.msgID - 1])
  }

  /** A record that has numbered the first messages of `sent` still holds all of them that lie
      beyond `safe`, and quotes no number beyond `bound`. */
  ghost predicate RecOk(rec: Rec, sent: seq<Payload>, safe: nat, bound: nat) {
    && rec.nextMsgID <= |sent| && QueueRun(rec) && OwnElems(rec)
    && rec.nextMsgID - |NonAcks(rec.queue)| <= safe
    && forall x :: x in rec.queue ==> ElemOk(x, sent, rec.nextMsgID, bound)
  }

  /** The messages taken are the first ones the peer numbered. */
  ghost predicate LogOk(log: seq<Payload>, rcd: nat, sent: seq<Payload>) {
    rcd <= |sent| && log == sent[..rcd]
  }

  function Rcd(v: Device, j: nat): nat
    requires j < |v.durable.st.recs|
  {
    v.durable.st.recs[j].lastMsgRcd
  }

  /** One save, seen from record `j`: `peer` is what the peer has numbered. */
  ghost predicate SnapOk(x: Snapshot, j: nat, sent: seq<Payload>, safe: nat, bound: nat, peer: seq<Payload>)
    requires j < |x.st.recs| == |x.logs|
  {
    RecOk(x.st.recs[j], sent, safe, bound) && LogOk(x.logs[j], x.st.recs[j].lastMsgRcd, peer)
  }

  /** The saves of a device, oldest first, do not go back in what was received. */
  ghost predicate Ordered(v: Device, j: nat)
    requires j < |v.st.recs| && Sized(v, |v.st.recs|)
  {
    && (forall k :: 0 <= k < |v.pending| ==> Rcd(v, j) <= v.pending[k].st.recs[j].lastMsgRcd <= v.st.recs[j].lastMsgRcd)
    && (forall k, l :: 0 <= k < l < |v.pending| ==>
          v.pending[k].st.recs[j].lastMsgRcd <= v.pending[l].st.recs[j].lastMsgRcd)
    && Rcd(v, j) <= v.st.recs[j].lastMsgRcd
  }

  /** Record `j` of a device, the peer being known by what it has numbered (`peer`) and by what it
      has durably received (`safe`). */
  ghost predicate SideOk(v: Device, j: nat, peer: seq<Payload>, safe: nat)
    requires j < |v.st.recs| && Sized(v, |v.st.recs|)
  {
    var sent, bound := v.sent[j], Rcd(v, j);
    && |sent| == v.st.recs[j].nextMsgID && (forall k :: 0 <= k < |sent| ==> sent[k] != [])
    && RecOk(v.st.recs[j], sent, safe, bound)
    && LogOk(v.logs[j], v.st.recs[j].lastMsgRcd, peer)
    && SnapOk(v.durable, j, sent, safe, bound, peer)
    && (forall k :: 0 <= k < |v.pending| ==> SnapOk(v.pending[k], j, sent, safe, bound, peer))
    && Ordered(v, j)
    && v.st.recs[j].lastMsgSaved <= bound
  }

  /** The newest save, and with it the state of a device that has a live token. */
  function Newest(v: Device): Snapshot {
    if v.pending == [] then v.durable else v.pending[|v.pending| - 1]
  }

  ghost predicate TokensOk(v: Device) {
    && v.committed <= v.used && 0 !in v.committed
    && (forall k :: 0 <= k < |v.pending| ==>
          v.pending[k].token != 0 && v.pending[k].token in v.used && v.pending[k].token !in v.committed)
    && (forall k, l :: 0 <= k < l < |v.pending| ==> v.pending[k].token != v.pending[l].token)
    && (v.st.lastSaveToken != 0 ==>
          v.st.lastSaveToken == Newest(v).token && |Newest(v).st.recs| == |v.st.recs|
          && forall j :: 0 <= j < |v.st.recs| ==> Newest(v).st.recs[j].lastMsgRcd == v.st.recs[j].lastMsgRcd)
  }

  ghost predicate DeviceOk(v: Device) {
    && StateOk(v.st) && StateOk(v.durable.st) && TokensOk(v)
    && SameChannelNos(v.st, v.durable.st)
    && forall k :: 0 <= k < |v.pending| ==> StateOk(v.pending[k].st) && SameChannelNos(v.st, v.pending[k].st)
  }

  ghost predicate SameChannelNos(a: State, b: State) {
    |a.recs| == |b.recs| && forall j :: 0 <= j < |a.recs| ==> a.recs[j].channelNo == b.recs[j].channelNo
  }

  /** Packets on their way from `e`. */
  ghost predicate NetOk(w: World, e: End)
    requires Shape(w) && ValidEnd(w, e)
  {
    var v := w.devs[e.dev];
    forall p :: p in w.net && p.from == e ==>
      Masked(p.elem.channelNo) == Masked(v.st.recs[e.rec].channelNo)
      && ElemOk(p.elem, v.sent[e.rec], |v.sent[e.rec]|, Rcd(v, e.rec))
  }

  ghost predicate EndOk(w: World, e: End)
    requires Shape(w) && ValidEnd(w, e)
  {
    var v, o := w.devs[e.dev], Other(e);
    var u := w.devs[o.dev];
    && SideOk(v, e.rec, u.sent[o.rec], Rcd(u, o.rec))
    && NetOk(w, e)
    && Masked(v.st.recs[e.rec].channelNo) == Masked(u.st.recs[o.rec].channelNo)
  }

  ghost predicate Inv(w: World) {
    && Shape(w)
    && (forall d :: 0 <= d < |w.devs| ==> DeviceOk(w.devs[d]))
    && forall e :: ValidEnd(w, e) ==> EndOk(w, e)
  }
}
