/** Whole runs of the protocol: what holds in every world reached, and that resending one queue
    is enough to catch up. */
module CommsRuns {
  import opened Wrappers
  import opened CommsState
  import opened CommsQueue
  import opened CommsKeep
  import opened CommsProtocol
  import opened CommsSafety

  function Peers(w: World, d: nat): (r: seq<seq<Payload>>)
    requires Shape(w) && d < |w.devs|
    ensures |r| == |w.devs[d].st.recs|
  {
    seq(|w.devs[d].st.recs|, j requires 0 <= j < |w.devs[d].st.recs| => PeerSent(w, End(d, j)))
  }

  function Safes(w: World, d: nat): (r: seq<nat>)
    requires Shape(w) && d < |w.devs|
    ensures |r| == |w.devs[d].st.recs|
  {
    seq(|w.devs[d].st.recs|, j requires 0 <= j < |w.devs[d].st.recs| => PeerSafe(w, End(d, j)))
  }

  function PeerSent(w: World, e: End): seq<Payload>
    requires Shape(w) && ValidEnd(w, e)
  {
    w.devs[Other(e).dev].sent[Other(e).rec]
  }

  function PeerSafe(w: World, e: End): nat
    requires Shape(w) && ValidEnd(w, e)
  {
    Rcd(w.devs[Other(e).dev], Other(e).rec)
  }

  lemma OtherOther(w: World, e: End)
    requires Shape(w) && ValidEnd(w, e)
    ensures ValidEnd(w, Other(e)) && Other(Other(e)) == e && Other(e).dev != e.dev
  {}

  lemma SidesOf(w: World, d: nat)
    requires Inv(w) && d < |w.devs|
    ensures AllSides(w.devs[d], Peers(w, d), Safes(w, d))
  {
    hide SideOk, DeviceOk, NetOk;
    forall j | 0 <= j < |w.devs[d].st.recs|
      ensures SideOk(w.devs[d], j, Peers(w, d)[j], Safes(w, d)[j])
    {
      assert EndOk(w, End(d, j));
    }
  }

  lemma ElemOkMore(x: Elem, sent: seq<Payload>, bound: nat, sent': seq<Payload>, bound': nat)
    requires ElemOk(x, sent, |sent|, bound) && sent <= sent' && bound <= bound'
    ensures ElemOk(x, sent', |sent'|, bound')
  {}

  /** One device moves on, the others and the network stay. */
  lemma DeviceStep(w: World, d: nat, v': Device)
    requires Inv(w) && d < |w.devs|
    requires Evolves(w.devs[d], v') && AllSides(v', Peers(w, d), Safes(w, d))
    ensures Inv(w.(devs := w.devs[d := v']))
  {
    hide SideOk, DeviceOk, NetOk, EndOk;
    var w' := w.(devs := w.devs[d := v']);
    EvolvesShape(w, d, v');
    forall e | ValidEnd(w', e)
      ensures EndOk(w', e)
    {
      EndStep(w, d, v', e);
    }
  }

  lemma EvolvesShape(w: World, d: nat, v': Device)
    requires Shape(w) && d < |w.devs| && Evolves(w.devs[d], v')
    ensures Shape(w.(devs := w.devs[d := v'])) && DeviceOk(v')
  {}

  lemma EndStep(w: World, d: nat, v': Device, e: End)
    requires Shape(w) && d < |w.devs| && ValidEnd(w, e) && EndOk(w, e)
    requires Shape(w.(devs := w.devs[d := v']))
    requires Evolves(w.devs[d], v') && AllSides(v', Peers(w, d), Safes(w, d))
    ensures EndOk(w.(devs := w.devs[d := v']), e)
  {
    hide SideOk, DeviceOk, Masked, NetOk, AllSides, Evolves, Sized;
    var w' := w.(devs := w.devs[d := v']);
    NetStep(w, d, v', e);
    SameChannel(w, d, v', e);
    if e.dev == d {
      OwnSide(w, d, v', e);
    } else if Other(e).dev == d {
      OtherSide(w, d, v', e);
    }
  }

  lemma SameChannel(w: World, d: nat, v': Device, e: End)
    requires Shape(w) && d < |w.devs| && ValidEnd(w, e) && Evolves(w.devs[d], v')
    ensures var w' := w.(devs := w.devs[d := v']);
            && e.rec < |w'.devs[e.dev].st.recs| && Other(e).rec < |w'.devs[Other(e).dev].st.recs|
            && w'.devs[e.dev].st.recs[e.rec].channelNo == w.devs[e.dev].st.recs[e.rec].channelNo
            && w'.devs[Other(e).dev].st.recs[Other(e).rec].channelNo == w.devs[Other(e).dev].st.recs[Other(e).rec].channelNo
  {
    hide DeviceOk;
  }

  lemma OwnSide(w: World, d: nat, v': Device, e: End)
    requires Shape(w) && d < |w.devs| && ValidEnd(w, e) && e.dev == d
    requires Shape(w.(devs := w.devs[d := v'])) && AllSides(v', Peers(w, d), Safes(w, d))
    ensures SideOk(v', e.rec, PeerSent(w.(devs := w.devs[d := v']), e), PeerSafe(w.(devs := w.devs[d := v']), e))
  {
    hide SideOk;
    assert SideOk(v', e.rec, Peers(w, d)[e.rec], Safes(w, d)[e.rec]);
  }

  lemma OtherSide(w: World, d: nat, v': Device, e: End)
    requires Shape(w) && d < |w.devs| && ValidEnd(w, e) && Other(e).dev == d && EndOk(w, e)
    requires Shape(w.(devs := w.devs[d := v'])) && Evolves(w.devs[d], v')
    ensures SideOk(w.devs[e.dev], e.rec, PeerSent(w.(devs := w.devs[d := v']), e), PeerSafe(w.(devs := w.devs[d := v']), e))
  {
    hide SideOk, DeviceOk, NetOk, Masked;
    var w' := w.(devs := w.devs[d := v']);
    SideOkPeer(w.devs[e.dev], e.rec, PeerSent(w, e), PeerSafe(w, e), PeerSent(w', e), PeerSafe(w', e));
  }

  lemma NetStep(w: World, d: nat, v': Device, e: End)
    requires Shape(w) && d < |w.devs| && ValidEnd(w, e) && NetOk(w, e)
    requires Shape(w.(devs := w.devs[d := v'])) && Evolves(w.devs[d], v')
    ensures NetOk(w.(devs := w.devs[d := v']), e)
  {
    hide DeviceOk, ElemOk, Masked;
    if e.dev == d {
      var v := w.devs[d];
      forall p | p in w.net && p.from == e
        ensures ElemOk(p.elem, v'.sent[e.rec], |v'.sent[e.rec]|, Rcd(v', e.rec))
      {
        ElemOkMore(p.elem, v.sent[e.rec], Rcd(v, e.rec), v'.sent[e.rec], Rcd(v', e.rec));
      }
    }
  }

  lemma QueuedOk(w: World, e: End, k: nat)
    requires Shape(w) && ValidEnd(w, e) && EndOk(w, e) && DeviceOk(w.devs[e.dev])
    requires k < |w.devs[e.dev].st.recs[e.rec].queue|
    ensures var v := w.devs[e.dev];
            var x := v.st.recs[e.rec].queue[k];
            && Masked(x.channelNo) == Masked(v.st.recs[e.rec].channelNo)
            && ElemOk(x, v.sent[e.rec], |v.sent[e.rec]|, Rcd(v, e.rec))
  {
    hide Masked, QueueRun, NetOk, TokensOk;
    var rec := w.devs[e.dev].st.recs[e.rec];
    assert rec.queue[k] in rec.queue && OwnElems(rec);
  }

  lemma TransmitKeeps(w: World, e: End, k: nat)
    requires Inv(w) && ValidEnd(w, e) && k < |w.devs[e.dev].st.recs[e.rec].queue|
    ensures Inv(w.(net := w.net + {Packet(e, w.devs[e.dev].st.recs[e.rec].queue[k])}))
  {
    hide SideOk, DeviceOk, ElemOk, Masked;
    QueuedOk(w, e, k);
    var w' := w.(net := w.net + {Packet(e, w.devs[e.dev].st.recs[e.rec].queue[k])});
    forall f | ValidEnd(w', f)
      ensures EndOk(w', f)
    {
      assert EndOk(w, f);
    }
  }

  lemma InvCounted(w: World)
    requires Inv(w)
    ensures Shape(w) && Counted(w)
  {
    hide SideOk, NetOk, EndOk;
  }

  ghost predicate Counted(w: World) {
    forall d :: 0 <= d < |w.devs| ==> w.devs[d].st.queueLen == QueueTotal(w.devs[d].st.recs)
  }

  lemma ArrivedOk(w: World, p: Packet)
    requires Inv(w) && p in w.net && ValidEnd(w, p.from)
    ensures var o := Other(p.from);
            && ValidEnd(w, o) && Masked(p.elem.channelNo) == Masked(w.devs[o.dev].st.recs[o.rec].channelNo)
            && ElemOk(p.elem, Peers(w, o.dev)[o.rec], |Peers(w, o.dev)[o.rec]|, Safes(w, o.dev)[o.rec])
  {
    hide SideOk, DeviceOk, ElemOk, Masked;
    OtherOther(w, p.from);
    assert EndOk(w, p.from);
  }

  /** Every step keeps the invariant, but for a restart that forgets a message. */
  lemma StepKeeps(w: World, s: Step)
    requires Inv(w) && Shape(w) && Enabled(w, s) && Counted(w) && Careful(w, s)
    ensures Inv(Next(w, s))
  {
    hide SideOk, EndOk, NetOk, ElemOk, AllSides, Evolves, Masked, AfterSend, AfterDeliver, AfterCrash, AfterNotify,
      AfterCommit, AfterWrite, Peers, Safes;
    match s
    case SendStep(e, payload) =>
      SidesOf(w, e.dev);
      SendKeeps(w.devs[e.dev], e.rec, payload, Peers(w, e.dev), Safes(w, e.dev));
      DeviceStep(w, e.dev, AfterSend(w.devs[e.dev], e.rec, payload));
    case TransmitStep(e, k) =>
      TransmitKeeps(w, e, k);
    case DeliverStep(p, rejected) =>
      var o := Other(p.from);
      ArrivedOk(w, p);
      SidesOf(w, o.dev);
      DeliverKeeps(w.devs[o.dev], o.rec, p.elem, rejected, Peers(w, o.dev), Safes(w, o.dev));
      DeviceStep(w, o.dev, AfterDeliver(w.devs[o.dev], o.rec, p.elem, rejected));
    case WriteStep(d, token) =>
      SidesOf(w, d);
      WriteKeeps(w.devs[d], token, Peers(w, d), Safes(w, d));
      DeviceStep(w, d, AfterWrite(w.devs[d], token));
    case CommitStep(d, k) =>
      SidesOf(w, d);
      CommitKeeps(w.devs[d], k, Peers(w, d), Safes(w, d));
      DeviceStep(w, d, AfterCommit(w.devs[d], k));
    case NotifyStep(d, token) =>
      SidesOf(w, d);
      NotifyKeeps(w.devs[d], token, Peers(w, d), Safes(w, d));
      DeviceStep(w, d, AfterNotify(w.devs[d], token));
    case CrashStep(d) =>
      SidesOf(w, d);
      CrashKeeps(w.devs[d], Peers(w, d), Safes(w, d));
      DeviceStep(w, d, AfterCrash(w.devs[d]));
  }

  // ----- runs -------------------------------------------------------------------------------

  /** Channels just established on both sides, saved, and nothing sent yet. */
  ghost predicate Init(w: World) {
    && Shape(w) && w.net == {}
    && (forall d :: 0 <= d < |w.devs| ==> FreshDevice(w.devs[d]))
    && forall e :: ValidEnd(w, e) ==> ChannelAgrees(w, e)
  }

  ghost predicate FreshDevice(v: Device) {
    && ChannelsOk(v.st.recs) && v.st.queueLen == 0 && v.st.lastSaveToken == 0 && |v.logs| == |v.sent| == |v.st.recs|
    && (forall j :: 0 <= j < |v.st.recs| ==>
          v.st.recs[j] == Rec(v.st.recs[j].channelNo, 0, 0, 0, 0, []) && v.logs[j] == [] && v.sent[j] == [])
    && v.pending == [] && v.durable.st == v.st && v.durable.logs == v.logs && v.committed == {} && v.used == {}
  }

  ghost predicate ChannelAgrees(w: World, e: End)
    requires Shape(w) && ValidEnd(w, e)
  {
    Masked(w.devs[e.dev].st.recs[e.rec].channelNo) == Masked(w.devs[Other(e).dev].st.recs[Other(e).rec].channelNo)
  }

  lemma {:induction false} NothingQueued(recs: seq<Rec>)
    requires forall j :: 0 <= j < |recs| ==> recs[j].queue == []
    ensures QueueTotal(recs) == 0
  {
    if recs != [] { NothingQueued(recs[1..]); }
  }

  lemma InitInv(w: World)
    requires Init(w)
    ensures Inv(w)
  {
    hide Masked, ChannelsOk, DeviceOk, EndOk, FreshDevice;
    forall d | 0 <= d < |w.devs|
      ensures DeviceOk(w.devs[d])
    {
      FreshIsOk(w.devs[d]);
    }
    forall e | ValidEnd(w, e)
      ensures EndOk(w, e)
    {
      OtherOther(w, e);
      FreshEnd(w, e);
    }
  }

  lemma FreshIsOk(v: Device)
    requires FreshDevice(v)
    ensures DeviceOk(v)
  {
    hide Masked, ChannelsOk;
    NothingQueued(v.st.recs);
  }

  lemma FreshEnd(w: World, e: End)
    requires Shape(w) && ValidEnd(w, e) && ValidEnd(w, Other(e)) && Other(Other(e)) == e && w.net == {}
    requires FreshDevice(w.devs[e.dev]) && FreshDevice(w.devs[Other(e).dev]) && ChannelAgrees(w, e)
    ensures EndOk(w, e)
  {
    hide Masked, ChannelsOk;
  }

  /** Taking the steps one after another leads from `w` to `w'`. */
  ghost predicate Reaches(w: World, steps: seq<Step>, w': World)
    decreases |steps|
  {
    if steps == [] then w' == w
    else Shape(w) && Counted(w) && Enabled(w, steps[0]) && Reaches(Next(w, steps[0]), steps[1..], w')
  }

  /** Every restart on the way from `w` is careful. */
  ghost predicate CarefulRun(w: World, steps: seq<Step>)
    decreases |steps|
  {
    steps == [] ||
    (Shape(w) && Counted(w) && Enabled(w, steps[0]) ==> Careful(w, steps[0]) && CarefulRun(Next(w, steps[0]), steps[1..]))
  }

  lemma {:induction false} NoRestarts(w: World, steps: seq<Step>)
    requires forall k :: 0 <= k < |steps| ==> !steps[k].CrashStep?
    ensures CarefulRun(w, steps)
    decreases |steps|
  {
    hide Next, Enabled;
    if steps != [] && Shape(w) && Counted(w) && Enabled(w, steps[0]) {
      NoRestarts(Next(w, steps[0]), steps[1..]);
    }
  }

  lemma {:induction false} RunKeeps(w: World, steps: seq<Step>, w': World)
    requires Inv(w) && Reaches(w, steps, w') && CarefulRun(w, steps)
    ensures Inv(w')
    decreases |steps|
  {
    hide Inv, Next, Enabled, Careful;
    if steps != [] {
      StepKeeps(w, steps[0]);
      RunKeeps(Next(w, steps[0]), steps[1..], w');
    }
  }

  lemma {:induction false} ReachesConcat(w: World, a: seq<Step>, w1: World, b: seq<Step>, w2: World)
    requires Reaches(w, a, w1) && Reaches(w1, b, w2)
    ensures Reaches(w, a + b, w2)
    decreases |a|
  {
    hide Next, Enabled;
    if a == [] {
      assert a + b == b;
    } else {
      assert (a + b)[0] == a[0] && (a + b)[1..] == a[1..] + b;
      ReachesConcat(Next(w, a[0]), a[1..], w1, b, w2);
    }
  }

  /** The messages end `e` has accepted are the first lastMsgRcd ones its peer numbered, in order
      and once each; the same holds of its last save. */
  ghost predicate LogsAgree(w: World, e: End)
    requires Shape(w) && ValidEnd(w, e) && ValidEnd(w, Other(e))
  {
    var v, peer := w.devs[e.dev], PeerSent(w, e);
    && v.st.recs[e.rec].lastMsgRcd <= |peer| && v.logs[e.rec] == peer[..v.st.recs[e.rec].lastMsgRcd]
    && Rcd(v, e.rec) <= v.st.recs[e.rec].lastMsgRcd && v.durable.logs[e.rec] == peer[..Rcd(v, e.rec)]
  }

  /** No packet sent by `e` or waiting in its queue, whenever it was made, acknowledges more than
      `e`'s last save holds. */
  ghost predicate AcksSaved(w: World, e: End)
    requires Shape(w) && ValidEnd(w, e)
  {
    && (forall p :: p in w.net && p.from == e ==> p.elem.ack <= Rcd(w.devs[e.dev], e.rec))
    && forall x :: x in w.devs[e.dev].st.recs[e.rec].queue ==> x.ack <= Rcd(w.devs[e.dev], e.rec)
  }

  /** Whatever the peer could still lose in a restart, `e` still has queued. */
  ghost predicate StillHeld(w: World, e: End)
    requires Shape(w) && ValidEnd(w, e) && ValidEnd(w, Other(e))
  {
    var v := w.devs[e.dev];
    forall n :: PeerSafe(w, e) <= n < |v.sent[e.rec]| ==> Holds(v.st.recs[e.rec].queue, n + 1, v.sent[e.rec][n])
  }

  ghost predicate Holds(q: seq<Elem>, n: nat, payload: Payload) {
    exists k :: 0 <= k < |q| && q[k].msgID == n && q[k].payload == payload
  }

  lemma HeldFrom(rec: Rec, sent: seq<Payload>, safe: nat, bound: nat, n: nat)
    requires RecOk(rec, sent, safe, bound) && safe < n <= rec.nextMsgID
    ensures Holds(rec.queue, n, sent[n - 1])
  {
    var run := NonAcks(rec.queue);
    var x := run[n - 1 - (rec.nextMsgID - |run|)];
    NonAcksHas(rec.queue, x);
    assert ElemOk(x, sent, rec.nextMsgID, bound);
  }

  lemma EndSafe(w: World, e: End)
    requires Inv(w) && ValidEnd(w, e)
    ensures ValidEnd(w, Other(e)) && LogsAgree(w, e) && AcksSaved(w, e) && StillHeld(w, e)
  {
    hide Masked, DeviceOk, QueueRun, OwnElems, NonAcks;
    OtherOther(w, e);
    assert EndOk(w, e);
    var v := w.devs[e.dev];
    forall n | PeerSafe(w, e) <= n < |v.sent[e.rec]|
      ensures Holds(v.st.recs[e.rec].queue, n + 1, v.sent[e.rec][n])
    {
      HeldFrom(v.st.recs[e.rec], v.sent[e.rec], PeerSafe(w, e), Rcd(v, e.rec), n + 1);
    }
  }

  /** Over every run, however packets are lost, repeated or reordered and devices carefully
      restarted: each log is a prefix of what the peer sent, no acknowledgement runs ahead of the
      disk, and the sender holds all the receiver may yet lose. */
  lemma AlwaysSafe(w0: World, steps: seq<Step>, w: World, e: End)
    requires Init(w0) && Reaches(w0, steps, w) && CarefulRun(w0, steps)
    requires Shape(w) ==> ValidEnd(w, e)
    ensures Shape(w) && ValidEnd(w, e) && ValidEnd(w, Other(e))
    ensures LogsAgree(w, e) && AcksSaved(w, e) && StillHeld(w, e)
  {
    hide LogsAgree, AcksSaved, StillHeld, Init, Reaches, DeviceOk, EndOk;
    InitInv(w0);
    RunKeeps(w0, steps, w);
    EndSafe(w, e);
  }

  // ----- catching up ------------------------------------------------------------------------

  /** Every packet queued at `e` is sent again. */
  function Resends(e: End, from: nat, n: nat): seq<Step>
    requires from <= n
    decreases n - from
  {
    if from == n then [] else [TransmitStep(e, from)] + Resends(e, from + 1, n)
  }

  function Sendings(e: End, q: seq<Elem>): (r: set<Packet>)
    ensures forall k :: 0 <= k < |q| ==> Packet(e, q[k]) in r
  {
    set k | 0 <= k < |q| :: Packet(e, q[k])
  }

  lemma {:induction false} ResendsReach(w: World, e: End, from: nat)
    requires Inv(w) && ValidEnd(w, e) && from <= |w.devs[e.dev].st.recs[e.rec].queue|
    ensures var q := w.devs[e.dev].st.recs[e.rec].queue;
            Reaches(w, Resends(e, from, |q|), w.(net := w.net + Sendings(e, q[from..])))
    decreases |w.devs[e.dev].st.recs[e.rec].queue| - from
  {
    hide Inv, Counted, Sendings;
    InvCounted(w);
    var q := w.devs[e.dev].st.recs[e.rec].queue;
    if from == |q| {
      NoSendings(e, q[from..]);
      assert w.net + {} == w.net;
    } else {
      var w1 := w.(net := w.net + {Packet(e, q[from])});
      TransmitKeeps(w, e, from);
      ResendsReach(w1, e, from + 1);
      MoreSendings(w.net, e, q, from);
      assert Resends(e, from, |q|)[1..] == Resends(e, from + 1, |q|);
    }
  }

  lemma NoSendings(e: End, q: seq<Elem>)
    requires q == []
    ensures Sendings(e, q) == {}
  {}

  lemma MoreSendings(net: set<Packet>, e: End, q: seq<Elem>, from: nat)
    requires from < |q|
    ensures net + {Packet(e, q[from])} + Sendings(e, q[from + 1..]) == net + Sendings(e, q[from..])
  {
    assert q[from..] == [q[from]] + q[from + 1..];
    var a, b := q[from..], q[from + 1..];
    forall k | 0 <= k < |b|
      ensures Packet(e, b[k]) in Sendings(e, a)
    {
      assert b[k] == a[k + 1];
    }
    forall k | 0 <= k < |a|
      ensures Packet(e, a[k]) in Sendings(e, b) + {Packet(e, q[from])}
    {
      if k > 0 { assert a[k] == b[k - 1]; }
    }
  }

  /** The packets arrive in the order they were queued. */
  function Deliveries(e: End, q: seq<Elem>): seq<Step>
    decreases |q|
  {
    if q == [] then [] else [DeliverStep(Packet(e, q[0]), false)] + Deliveries(e, q[1..])
  }

  ghost predicate InFlight(w: World, e: End, q: seq<Elem>) {
    forall k :: 0 <= k < |q| ==> Packet(e, q[k]) in w.net
  }

  lemma {:induction false} DeliveriesReach(w: World, e: End, q: seq<Elem>, lo: nat) returns (w': World)
    requires Inv(w) && ValidEnd(w, e) && ValidEnd(w, Other(e)) && InFlight(w, e, q) && RunFrom(NonAcks(q), lo)
    requires lo <= w.devs[Other(e).dev].st.recs[Other(e).rec].lastMsgRcd <= lo + |NonAcks(q)|
    ensures Reaches(w, Deliveries(e, q), w') && Inv(w') && ValidEnd(w', e) && ValidEnd(w', Other(e))
    ensures w'.devs[e.dev] == w.devs[e.dev]
    ensures w'.devs[Other(e).dev].st.recs[Other(e).rec].lastMsgRcd == lo + |NonAcks(q)|
    decreases |q|
  {
    hide Inv, Enabled, DeviceOk, EndOk, InFlight, NonAcks;
    if q == [] {
      NoneLeft(q);
      w' := w;
    } else {
      var w1, lo1 := DeliverFirst(w, e, q, lo);
      w' := DeliveriesReach(w1, e, q[1..], lo1);
      ReachesFirst(w, DeliverStep(Packet(e, q[0]), false), Deliveries(e, q[1..]), w');
    }
  }

  lemma NoneLeft(q: seq<Elem>)
    requires q == []
    ensures NonAcks(q) == []
  {}

  lemma ReachesFirst(w: World, s: Step, rest: seq<Step>, w': World)
    requires Shape(w) && Counted(w) && Enabled(w, s) && Reaches(Next(w, s), rest, w')
    ensures Reaches(w, [s] + rest, w')
  {
    hide Enabled, Next;
    assert ([s] + rest)[1..] == rest;
  }

  lemma DeliverFirst(w: World, e: End, q: seq<Elem>, lo: nat) returns (w1: World, lo1: nat)
    requires q != [] && Inv(w) && ValidEnd(w, e) && ValidEnd(w, Other(e)) && InFlight(w, e, q) && RunFrom(NonAcks(q), lo)
    requires lo <= w.devs[Other(e).dev].st.recs[Other(e).rec].lastMsgRcd <= lo + |NonAcks(q)|
    ensures var s := DeliverStep(Packet(e, q[0]), false);
            Shape(w) && Counted(w) && Enabled(w, s) && w1 == Next(w, s)
    ensures Inv(w1) && ValidEnd(w1, e) && ValidEnd(w1, Other(e)) && InFlight(w1, e, q[1..]) && RunFrom(NonAcks(q[1..]), lo1)
    ensures w1.devs[e.dev] == w.devs[e.dev]
    ensures lo1 <= w1.devs[Other(e).dev].st.recs[Other(e).rec].lastMsgRcd <= lo1 + |NonAcks(q[1..])|
    ensures lo1 + |NonAcks(q[1..])| == lo + |NonAcks(q)|
  {
    hide Inv, Next, Enabled, NonAcks, RunFrom;
    var o, x := Other(e), q[0];
    w1 := Delivered(w, e, x);
    assert q == [x] + q[1..];
    NonAcksFirst(x, q[1..]);
    lo1 := lo;
    if x.msgID != 0 {
      RunRest(x, NonAcks(q[1..]), lo);
      lo1 := lo + 1;
    }
  }

  /** One packet of `e` arrives: the other side takes it if it is the next one. */
  lemma Delivered(w: World, e: End, x: Elem) returns (w1: World)
    requires Inv(w) && ValidEnd(w, e) && ValidEnd(w, Other(e)) && Packet(e, x) in w.net
    ensures var s := DeliverStep(Packet(e, x), false);
            Shape(w) && Counted(w) && Enabled(w, s) && w1 == Next(w, s)
    ensures Inv(w1) && Shape(w1) && ValidEnd(w1, e) && ValidEnd(w1, Other(e)) && w1.net == w.net && w1.devs[e.dev] == w.devs[e.dev]
    ensures var rcd := w.devs[Other(e).dev].st.recs[Other(e).rec].lastMsgRcd;
            w1.devs[Other(e).dev].st.recs[Other(e).rec].lastMsgRcd ==
            if x.msgID != 0 && x.msgID == rcd + 1 then x.msgID else rcd
  {
    hide SideOk, NetOk, Receive, Masked, EndOk, DeviceOk;
    var s := DeliverStep(Packet(e, x), false);
    InvCounted(w);
    OtherOther(w, e);
    ArrivedOk(w, Packet(e, x));
    StepKeeps(w, s);
    w1 := Next(w, s);
    NotEmpty(w, e, x);
    ReceiveAt(w, Other(e), x);
  }

  lemma NotEmpty(w: World, e: End, x: Elem)
    requires Inv(w) && ValidEnd(w, e) && Packet(e, x) in w.net
    ensures x.msgID != 0 ==> x.payload != []
  {
    hide Masked, DeviceOk, RecOk, LogOk, Ordered;
    assert EndOk(w, e);
  }

  lemma ReceiveAt(w: World, o: End, x: Elem)
    requires Inv(w) && ValidEnd(w, o) && Masked(x.channelNo) == Masked(w.devs[o.dev].st.recs[o.rec].channelNo)
    ensures var st := w.devs[o.dev].st;
            var st' := Receive(st, x, false);
            && o.rec < |st'.recs|
            && st'.recs[o.rec].lastMsgRcd ==
               if x.msgID == st.recs[o.rec].lastMsgRcd + 1 && x.payload != [] then x.msgID else st.recs[o.rec].lastMsgRcd
  {
    hide SideOk, NetOk, EndOk, StateOk, Receive, Masked;
    ReceiveKeeps(w.devs[o.dev].st, o.rec, x);
  }

  /** From any world reached, sending one side's queue once more and delivering it in order gives
      the peer every message that side has numbered. */
  lemma CatchesUp(w0: World, steps: seq<Step>, w: World, e: End) returns (w': World)
    requires Init(w0) && Reaches(w0, steps, w) && CarefulRun(w0, steps)
    requires Shape(w) ==> ValidEnd(w, e)
    ensures Shape(w) && ValidEnd(w, e)
    ensures var q := w.devs[e.dev].st.recs[e.rec].queue;
            Reaches(w, Resends(e, 0, |q|) + Deliveries(e, q), w')
    ensures Shape(w') && ValidEnd(w', Other(e))
    ensures w'.devs[Other(e).dev].logs[Other(e).rec] == w.devs[e.dev].sent[e.rec]
    ensures w'.devs[Other(e).dev].st.recs[Other(e).rec].lastMsgRcd == w.devs[e.dev].st.recs[e.rec].nextMsgID
  {
    hide DeviceOk, EndOk, Reaches, Init, Next, NonAcks, RunFrom, Sendings;
    InitInv(w0);
    RunKeeps(w0, steps, w);
    OtherOther(w, e);
    var q := w.devs[e.dev].st.recs[e.rec].queue;
    ResendsReach(w, e, 0);
    assert q[0..] == q;
    var w1 := w.(net := w.net + Sendings(e, q));
    OnlyTransmits(e, 0, |q|);
    NoRestarts(w, Resends(e, 0, |q|));
    RunKeeps(w, Resends(e, 0, |q|), w1);
    var lo := WithinReach(w1, e);
    w' := DeliveriesReach(w1, e, q, lo);
    ReachesConcat(w, Resends(e, 0, |q|), w1, Deliveries(e, q), w');
    AllTaken(w', e);
  }

  lemma {:induction false} OnlyTransmits(e: End, from: nat, n: nat)
    requires from <= n
    ensures forall k :: 0 <= k < |Resends(e, from, n)| ==> Resends(e, from, n)[k].TransmitStep?
    decreases n - from
  {
    if from < n {
      OnlyTransmits(e, from + 1, n);
    }
  }

  lemma WithinReach(w: World, e: End) returns (lo: nat)
    requires Inv(w) && ValidEnd(w, e) && ValidEnd(w, Other(e))
    ensures var q := w.devs[e.dev].st.recs[e.rec].queue;
            && RunFrom(NonAcks(q), lo)
            && lo <= w.devs[Other(e).dev].st.recs[Other(e).rec].lastMsgRcd <= lo + |NonAcks(q)|
            && lo + |NonAcks(q)| == w.devs[e.dev].st.recs[e.rec].nextMsgID
  {
    hide Masked, DeviceOk, NonAcks, RunFrom, OwnElems, NetOk;
    OtherOther(w, e);
    assert EndOk(w, e) && EndOk(w, Other(e));
    var rec := w.devs[e.dev].st.recs[e.rec];
    lo := rec.nextMsgID - |NonAcks(rec.queue)|;
  }

  lemma AllTaken(w: World, e: End)
    requires Inv(w) && ValidEnd(w, e) && ValidEnd(w, Other(e))
    requires w.devs[Other(e).dev].st.recs[Other(e).rec].lastMsgRcd == w.devs[e.dev].st.recs[e.rec].nextMsgID
    ensures w.devs[Other(e).dev].logs[Other(e).rec] == w.devs[e.dev].sent[e.rec]
  {
    hide Masked, DeviceOk, RecOk, NetOk, Ordered;
    OtherOther(w, e);
    assert EndOk(w, e) && EndOk(w, Other(e));
  }
}
