/** Restarting a device that has numbered messages not in its last save: exactly then the protocol
    may lose one. */
module CommsCrash {
  import opened Wrappers
  import opened CommsState
  import opened CommsQueue
  import opened CommsKeep
  import opened CommsProtocol
  import opened CommsSafety
  import opened CommsRuns

  /** The record as it comes back, and then with one message more. */
  lemma RestartSend(v: Device, j: nat, payload: Payload, peers: seq<seq<Payload>>, safes: seq<nat>)
    requires DeviceOk(v) && AllSides(v, peers, safes) && j < |v.st.recs| && payload != []
    ensures |v.durable.st.recs| == |v.sent| == |v.st.recs| && j < |AfterCrash(v).st.recs| == |v.sent| && AfterCrash(v).sent == v.sent
    ensures var v' := AfterSend(AfterCrash(v), j, payload);
            && |v'.st.recs| == |v.st.recs| && v'.durable == v.durable && v'.pending == [] && |v'.logs| == |v.st.recs|
            && v'.sent == v.sent[j := v.sent[j] + [payload]]
            && forall x :: x in v'.st.recs[j].queue ==> x.msgID <= v.durable.st.recs[j].nextMsgID + 1
    ensures |v.sent[j]| == v.st.recs[j].nextMsgID
    ensures v.durable.st.recs[j].nextMsgID <= v.st.recs[j].nextMsgID
  {
    hide LogOk, QueueRun, OwnElems, ChannelsOk, NonAcks, Loaded, Written, TokensOk, SideOk, RestartedRecs, Restarted, Send, Masked;
    SaveLoad(v.durable.st);
    RestartOk(v.durable.st);
    var st := AfterCrash(v).st;
    assert st.recs == RestartedRecs(v.durable.st.recs);
    SendEffect(st, j, st.recs[j].channelNo, payload);
    SideParts(v, j, peers[j], safes[j]);
    RecOkRestarted(v.durable.st.recs[j], v.sent[j], safes[j], Rcd(v, j));
    RestartedNumber(v.durable.st.recs[j]);
  }

  lemma RestartedNumber(rec: Rec)
    ensures Restarted(rec).nextMsgID == rec.nextMsgID
  {}

  lemma SideParts(v: Device, j: nat, peer: seq<Payload>, safe: nat)
    requires j < |v.st.recs| && Sized(v, |v.st.recs|) && SideOk(v, j, peer, safe)
    ensures |v.sent[j]| == v.st.recs[j].nextMsgID
    ensures RecOk(v.durable.st.recs[j], v.sent[j], safe, Rcd(v, j))
  {}

  /** A restart may always happen, and a message be sent right after it. */
  lemma RestartAllows(w: World, d: nat, j: nat, payload: Payload)
    requires Inv(w) && ValidEnd(w, End(d, j)) && payload != []
    ensures Shape(w) && Counted(w) && Enabled(w, CrashStep(d))
    ensures var w1 := Next(w, CrashStep(d));
            Shape(w1) && Counted(w1) && Enabled(w1, SendStep(End(d, j), payload))
    ensures j < |AfterCrash(w.devs[d]).st.recs| == |AfterCrash(w.devs[d]).sent|
    ensures var w2 := w.(devs := w.devs[d := AfterSend(AfterCrash(w.devs[d]), j, payload)]);
            w2 == Next(Next(w, CrashStep(d)), SendStep(End(d, j), payload)) && Shape(w2) && ValidEnd(w2, End(d, j))
  {
    hide SideOk, EndOk, NetOk, AfterSend, StateOk, TokensOk, Peers, Safes, Loaded, Written, AllSides;
    InvCounted(w);
    SidesOf(w, d);
    RestartSend(w.devs[d], j, payload, Peers(w, d), Safes(w, d));
    RestartCounts(w.devs[d]);
  }

  lemma RestartCounts(v: Device)
    requires DeviceOk(v)
    ensures AfterCrash(v).st.queueLen == QueueTotal(AfterCrash(v).st.recs) && |AfterCrash(v).st.recs| == |v.st.recs|
  {
    hide StateOk, TokensOk, QueueTotal, Loaded, Written;
    SaveLoad(v.durable.st);
  }

  /** The world after a restart of device `d` and a message sent on record `j`. */
  ghost function SentAfterRestart(w: World, d: nat, j: nat, payload: Payload): (w2: World)
    requires Inv(w) && ValidEnd(w, End(d, j)) && payload != []
    ensures Shape(w2) && ValidEnd(w2, End(d, j)) && ValidEnd(w2, Other(End(d, j)))
  {
    RestartAllows(w, d, j, payload);
    Next(Next(w, CrashStep(d)), SendStep(End(d, j), payload))
  }

  /** If a message had been numbered and not saved, its number is used again: the new message has a
      higher place in what was sent than any packet queued. */
  lemma UnsavedBreaks(w: World, d: nat, j: nat, payload: Payload)
    requires Inv(w) && ValidEnd(w, End(d, j)) && payload != []
    requires w.devs[d].durable.st.recs[j].nextMsgID != w.devs[d].st.recs[j].nextMsgID
    ensures !StillHeld(SentAfterRestart(w, d, j, payload), End(d, j))
  {
    hide SideOk, NetOk, AfterSend, AfterCrash, StateOk, TokensOk, DeviceOk, Masked, Peers, Safes, Enabled, Next, AllSides;
    var e, v := End(d, j), w.devs[d];
    RestartAllows(w, d, j, payload);
    SidesOf(w, d);
    RestartSend(v, j, payload, Peers(w, d), Safes(w, d));
    PeerBehind(w, e);
    var w2 := SentAfterRestart(w, d, j, payload);
    assert w2.devs[d] == AfterSend(AfterCrash(v), j, payload) && w2.devs[Other(e).dev] == w.devs[Other(e).dev];
    var n := |v.sent[j]|;
    assert PeerSafe(w2, e) <= n < |w2.devs[d].sent[j]|;
    assert !Holds(w2.devs[d].st.recs[j].queue, n + 1, w2.devs[d].sent[j][n]);
  }

  lemma PeerBehind(w: World, e: End)
    requires Inv(w) && ValidEnd(w, e)
    ensures ValidEnd(w, Other(e)) && PeerSafe(w, e) <= |w.devs[e.dev].sent[e.rec]|
  {
    hide DeviceOk, NetOk, RecOk, Ordered, Masked;
    OtherOther(w, e);
    assert EndOk(w, Other(e));
  }

  /** A restart of device `d` is harmless exactly if all messages it has numbered are in its last
      save: then the invariant holds on, and else the next message is not held as it must be. */
  lemma CrashExact(w: World, d: nat)
    requires Inv(w) && d < |w.devs|
    ensures Shape(w) && Counted(w) && (SendsSaved(w.devs[d]) ==> Inv(Next(w, CrashStep(d))))
    ensures SendsSaved(w.devs[d]) <==>
            forall j: nat, payload: Payload :: ValidEnd(w, End(d, j)) && payload != [] ==>
              StillHeld(SentAfterRestart(w, d, j, payload), End(d, j))
  {
    hide Inv, Next, StillHeld, AfterCrash;
    InvCounted(w);
    if SendsSaved(w.devs[d]) {
      StepKeeps(w, CrashStep(d));
      forall j: nat, payload: Payload | ValidEnd(w, End(d, j)) && payload != []
        ensures StillHeld(SentAfterRestart(w, d, j, payload), End(d, j))
      {
        RestartAllows(w, d, j, payload);
        var w1 := Next(w, CrashStep(d));
        StepKeeps(w1, SendStep(End(d, j), payload));
        EndSafe(SentAfterRestart(w, d, j, payload), End(d, j));
      }
    } else {
      var j := Unsaved(w, d);
      UnsavedBreaks(w, d, j, [0]);
    }
  }

  lemma Unsaved(w: World, d: nat) returns (j: nat)
    requires Inv(w) && d < |w.devs| && !SendsSaved(w.devs[d])
    ensures ValidEnd(w, End(d, j)) && w.devs[d].durable.st.recs[j].nextMsgID != w.devs[d].st.recs[j].nextMsgID
  {
    hide DeviceOk, EndOk;
    var v := w.devs[d];
    j :| 0 <= j < |v.st.recs| && v.durable.st.recs[j].nextMsgID != v.st.recs[j].nextMsgID;
  }

  // ----- a message lost for good ------------------------------------------------------------

  /** A device with one record, on channel 4. */
  function One(next: nat, ackd: nat, rcd: nat, saved: nat, q: seq<Elem>, token: nat): (st: State)
    ensures |st.recs| == 1 && st.queueLen == QueueTotal(st.recs)
  {
    assert [Rec(4, next, ackd, rcd, saved, q)][1..] == [];
    State([Rec(4, next, ackd, rcd, saved, q)], |q|, token)
  }

  lemma OnePost(next: nat, ackd: nat, rcd: nat, saved: nat, q: seq<Elem>, token: nat, msgID: nat, payload: Payload)
    requires Elem(4, msgID, saved, payload) !in q
    ensures Post(One(next, ackd, rcd, saved, q, token), 0, msgID, 4, payload) ==
            One(next, saved, rcd, saved, q + [Elem(4, msgID, saved, payload)], token)
  {}

  lemma OneRecord(st: State)
    requires |st.recs| == 1 && st.recs[0].channelNo == 4
    ensures RecordFor(st.recs, 4, 0) == Some(0)
  {}

  lemma OneSend(payload: Payload)
    requires payload != []
    ensures Send(One(0, 0, 0, 0, [], 0), 4, payload) == One(1, 0, 0, 0, [Elem(4, 1, 0, payload)], 0)
  {
    OneRecord(One(0, 0, 0, 0, [], 0));
    OnePost(1, 0, 0, 0, [], 0, 1, payload);
    var rec := Rec(4, 0, 0, 0, 0, []);
    assert [rec][0 := rec.(nextMsgID := 1)] == [Rec(4, 1, 0, 0, 0, [])];
    assert [] + [Elem(4, 1, 0, payload)] == [Elem(4, 1, 0, payload)];
  }

  lemma OneAckAny(st: State, force: bool)
    requires |st.recs| == 1
    ensures AckAny(st, force, 0) ==
            if force || st.recs[0].lastMsgAckd < st.recs[0].lastMsgRcd then Post(st, 0, 0, st.recs[0].channelNo, []) else st
  {}

  lemma OneTrim(next: nat, ackd: nat, rcd: nat, saved: nat, q: seq<Elem>, token: nat, ack: nat)
    ensures RemoveFromQueue(One(next, ackd, rcd, saved, q, token), 4, ack) ==
            One(next, ackd, rcd, saved, Keep(q, 4, ack), token)
  {
    OneRecord(One(next, ackd, rcd, saved, q, token));
    assert KeepRecs([Rec(4, next, ackd, rcd, saved, q)], 4, ack) == [Rec(4, next, ackd, rcd, saved, Keep(q, 4, ack))];
  }

  /** What the queues of the two devices go through in the run below. */
  lemma UnsavedSendQueues(m1: Payload, m2: Payload)
    requires m1 != [] && m2 != []
    ensures var e1, e2, ack0, ack1 := Elem(4, 1, 0, m1), Elem(4, 1, 0, m2), Elem(4, 0, 0, []), Elem(4, 0, 1, []);
            var start := One(0, 0, 0, 0, [], 0);
            && Send(start, 4, m1) == One(1, 0, 0, 0, [e1], 0)
            && Receive(start, e1, false) == One(0, 0, 1, 0, [], 0)
            && Loaded(Written(start)) == start
            && Send(start, 4, m2) == One(1, 0, 0, 0, [e2], 0)
            && Receive(One(0, 0, 1, 0, [], 0), e2, false) == One(0, 0, 1, 0, [ack0], 0)
            && SaveSucceeded(One(0, 0, 1, 0, [ack0], 7), 7) == One(0, 1, 1, 1, [ack0, ack1], 7)
            && Receive(One(1, 0, 0, 0, [e2], 0), ack1, false) == One(1, 0, 0, 0, [], 0)
  {
    hide Send, RemoveFromQueue, AckAny, Post, RecordFor, Keep, QueueTotal;
    var e1, e2, ack0, ack1 := Elem(4, 1, 0, m1), Elem(4, 1, 0, m2), Elem(4, 0, 0, []), Elem(4, 0, 1, []);
    OneSend(m1);
    OneSend(m2);
    OneTrim(0, 0, 0, 0, [], 0, 0);
    OneTrim(0, 0, 1, 0, [], 0, 0);
    OneTrim(1, 0, 0, 0, [e2], 0, 1);
    KeptNone(4, 1, 0, m2);
    OneRecord(One(0, 0, 0, 0, [], 0));
    OneRecord(One(0, 0, 1, 0, [], 0));
    OneRecord(One(1, 0, 0, 0, [e2], 0));
    assert [Rec(4, 0, 0, 0, 0, [])][0 := Rec(4, 0, 0, 1, 0, [])] == [Rec(4, 0, 0, 1, 0, [])];
    OneAckAny(One(0, 0, 1, 0, [], 0), true);
    OnePost(0, 0, 1, 0, [], 0, 0, []);
    assert [] + [ack0] == [ack0];
    OneSaved(ack0, ack1);
    OneLoaded();
  }

  lemma KeptNone(channelNo: nat, msgID: nat, ack: nat, payload: Payload)
    ensures Keep([], channelNo, ack) == []
    ensures Keep([Elem(channelNo, msgID, ack, payload)], channelNo, msgID) == []
  {}

  lemma OneSaved(ack0: Elem, ack1: Elem)
    requires ack0 == Elem(4, 0, 0, []) && ack1 == Elem(4, 0, 1, [])
    ensures SaveSucceeded(One(0, 0, 1, 0, [ack0], 7), 7) == One(0, 1, 1, 1, [ack0, ack1], 7)
  {
    var st := One(0, 0, 1, 0, [ack0], 7);
    assert seq(|st.recs|, i requires 0 <= i < |st.recs| => st.recs[i].(lastMsgSaved := st.recs[i].lastMsgRcd))
        == [Rec(4, 0, 0, 1, 1, [ack0])];
    OneAckAny(One(0, 0, 1, 1, [ack0], 7), false);
    OnePost(0, 0, 1, 1, [ack0], 7, 0, []);
    assert [ack0] + [ack1] == [ack0, ack1];
  }

  lemma OneLoaded()
    ensures Loaded(Written(One(0, 0, 0, 0, [], 0))) == One(0, 0, 0, 0, [], 0)
  {
    var st := One(0, 0, 0, 0, [], 0);
    assert AllNonAcks(st.recs) == [];
    assert Loaded(Written(st)).recs == st.recs;
  }

  /** A host and one guest, on channel 4. */
  function Pair(host: Device, guest: Device, net: set<Packet>): World {
    World([host, guest], net)
  }

  function Solo(st: State, log: seq<Payload>, pending: seq<Snapshot>, durable: Snapshot, committed: set<nat>, used: set<nat>,
                sent: seq<Payload>): Device {
    Device(st, [log], pending, durable, committed, used, [sent])
  }

  function Start(): State { One(0, 0, 0, 0, [], 0) }

  function StartSave(): Snapshot { Snapshot(0, Start(), [[]]) }

  function StartDevice(): Device { Solo(Start(), [], [], StartSave(), {}, {}, []) }

  /** The guest's end of the channel, and the host's. */
  const GUEST: End := End(1, 0)
  const HOST: End := End(0, 0)

  ghost predicate Leads(w: World, s: Step, w': World) {
    Shape(w) && Counted(w) && Enabled(w, s) && Next(w, s) == w'
  }

  lemma StartOk()
    ensures Init(Pair(StartDevice(), StartDevice(), {}))
  {
    var w := Pair(StartDevice(), StartDevice(), {});
    assert Shape(w);
    assert FreshDevice(StartDevice());
    forall e | ValidEnd(w, e)
      ensures ChannelAgrees(w, e)
    {
      assert e == GUEST || e == HOST;
    }
  }

  /** Devices with one record each make a world of the right shape. */
  lemma PairOk(host: Device, guest: Device, net: set<Packet>)
    requires Sized(host, 1) && Sized(guest, 1)
    requires host.st.queueLen == QueueTotal(host.st.recs) && guest.st.queueLen == QueueTotal(guest.st.recs)
    ensures var w := Pair(host, guest, net);
            && Shape(w) && Counted(w) && ValidEnd(w, GUEST) && ValidEnd(w, HOST) && Other(GUEST) == HOST && Other(HOST) == GUEST
            && w.devs == [host, guest] && w.devs[0] == host && w.devs[1] == guest
    ensures forall v :: [host, guest][0 := v] == [v, guest] && [host, guest][1 := v] == [host, v]
  {}

  /** The steps of the run. */
  function LossySteps(m1: Payload, m2: Payload): seq<Step> {
    var e1, e2, ack1 := Elem(4, 1, 0, m1), Elem(4, 1, 0, m2), Elem(4, 0, 1, []);
    [SendStep(GUEST, m1), TransmitStep(GUEST, 0), CrashStep(1), DeliverStep(Packet(GUEST, e1), false),
     SendStep(GUEST, m2), TransmitStep(GUEST, 0), DeliverStep(Packet(GUEST, e2), false),
     WriteStep(0, 7), CommitStep(0, 0), NotifyStep(0, 7), TransmitStep(HOST, 1), DeliverStep(Packet(HOST, ack1), false)]
  }

  /** Where the run ends: the host has taken `m1` and saved it, the guest has numbered `m2`, too, and
      has nothing queued. */
  function LossyEnd(m1: Payload, m2: Payload): World {
    var e1, e2, ack0, ack1 := Elem(4, 1, 0, m1), Elem(4, 1, 0, m2), Elem(4, 0, 0, []), Elem(4, 0, 1, []);
    var saved := Snapshot(7, One(0, 0, 1, 0, [ack0], 7), [[m1]]);
    Pair(Solo(One(0, 1, 1, 1, [ack0, ack1], 7), [m1], [], saved, {7}, {7}, []),
         Solo(One(1, 0, 0, 0, [], 0), [], [], StartSave(), {}, {}, [m1, m2]),
         {Packet(GUEST, e1), Packet(GUEST, e2), Packet(HOST, ack1)})
  }

  lemma GuestForgets(m1: Payload, m2: Payload)
    requires m1 != [] && m2 != []
    ensures var e1, e2 := Elem(4, 1, 0, m1), Elem(4, 1, 0, m2);
            var p1 := {Packet(GUEST, e1)};
            var g0, h0 := StartDevice(), StartDevice();
            var g1 := Solo(One(1, 0, 0, 0, [e1], 0), [], [], StartSave(), {}, {}, [m1]);
            var g2 := Solo(Start(), [], [], StartSave(), {}, {}, [m1]);
            && Leads(Pair(h0, g0, {}), SendStep(GUEST, m1), Pair(h0, g1, {}))
            && Leads(Pair(h0, g1, {}), TransmitStep(GUEST, 0), Pair(h0, g1, p1))
            && Leads(Pair(h0, g1, p1), CrashStep(1), Pair(h0, g2, p1))
  {
    hide Send, Loaded, Written, QueueTotal, Receive;
    UnsavedSendQueues(m1, m2);
    var e1 := Elem(4, 1, 0, m1);
    var g1 := Solo(One(1, 0, 0, 0, [e1], 0), [], [], StartSave(), {}, {}, [m1]);
    PairOk(StartDevice(), StartDevice(), {});
    PairOk(StartDevice(), g1, {});
    PairOk(StartDevice(), g1, {Packet(GUEST, e1)});
    OneMore([], m1);
    NoneMore(Packet(GUEST, e1));
  }

  lemma OneMore(log: seq<Payload>, m: Payload)
    ensures [log][0 := log + [m]] == [log + [m]] && [] + [m] == [m]
  {}

  lemma NoneMore(p: Packet)
    ensures {} + {p} == {p}
  {}

  lemma NotExpected(st: State, e: Elem)
    requires |st.recs| == 1 && (e.payload == [] || e.msgID != st.recs[0].lastMsgRcd + 1)
    ensures Expected(st, e) == None
  {}

  lemma GuestRepeats(m1: Payload, m2: Payload)
    requires m1 != [] && m2 != []
    ensures var e1, e2, ack0 := Elem(4, 1, 0, m1), Elem(4, 1, 0, m2), Elem(4, 0, 0, []);
            var p1, p12 := {Packet(GUEST, e1)}, {Packet(GUEST, e1), Packet(GUEST, e2)};
            var h0 := StartDevice();
            var h1 := Solo(One(0, 0, 1, 0, [], 0), [m1], [], StartSave(), {}, {}, []);
            var h2 := Solo(One(0, 0, 1, 0, [ack0], 0), [m1], [], StartSave(), {}, {}, []);
            var g2 := Solo(Start(), [], [], StartSave(), {}, {}, [m1]);
            var g3 := Solo(One(1, 0, 0, 0, [e2], 0), [], [], StartSave(), {}, {}, [m1, m2]);
            && Leads(Pair(h0, g2, p1), DeliverStep(Packet(GUEST, e1), false), Pair(h1, g2, p1))
            && Leads(Pair(h1, g2, p1), SendStep(GUEST, m2), Pair(h1, g3, p1))
            && Leads(Pair(h1, g3, p1), TransmitStep(GUEST, 0), Pair(h1, g3, p12))
            && Leads(Pair(h1, g3, p12), DeliverStep(Packet(GUEST, e2), false), Pair(h2, g3, p12))
  {
    hide Send, Loaded, Written, QueueTotal, Receive, Expected;
    UnsavedSendQueues(m1, m2);
    var e1, e2, ack0 := Elem(4, 1, 0, m1), Elem(4, 1, 0, m2), Elem(4, 0, 0, []);
    var p1, p12 := {Packet(GUEST, e1)}, {Packet(GUEST, e1), Packet(GUEST, e2)};
    var h1 := Solo(One(0, 0, 1, 0, [], 0), [m1], [], StartSave(), {}, {}, []);
    var g2 := Solo(Start(), [], [], StartSave(), {}, {}, [m1]);
    var g3 := Solo(One(1, 0, 0, 0, [e2], 0), [], [], StartSave(), {}, {}, [m1, m2]);
    PairOk(StartDevice(), g2, p1);
    PairOk(h1, g2, p1);
    PairOk(h1, g3, p1);
    PairOk(h1, g3, p12);
    OneMore([], m1);
    OneMore([m1], m2);
    StartExpects(e1);
    NotExpected(h1.st, e2);
    assert [m1] + [m2] == [m1, m2];
    assert p1 + {Packet(GUEST, e2)} == p12;
  }

  lemma StartExpects(e: Elem)
    requires e.channelNo == 4 && e.msgID == 1 && e.payload != []
    ensures Expected(Start(), e) == Some(0)
  {
    OneRecord(Start());
  }

  lemma HostSaves(m1: Payload, m2: Payload)
    requires m1 != [] && m2 != []
    ensures var ack0, ack1, e2 := Elem(4, 0, 0, []), Elem(4, 0, 1, []), Elem(4, 1, 0, m2);
            var net := {Packet(GUEST, Elem(4, 1, 0, m1)), Packet(GUEST, e2)};
            var st := One(0, 0, 1, 0, [ack0], 7);
            var saved := Snapshot(7, st, [[m1]]);
            var h2 := Solo(One(0, 0, 1, 0, [ack0], 0), [m1], [], StartSave(), {}, {}, []);
            var h3 := Solo(st, [m1], [saved], StartSave(), {}, {7}, []);
            var h4 := Solo(st, [m1], [], saved, {7}, {7}, []);
            var h5 := Solo(One(0, 1, 1, 1, [ack0, ack1], 7), [m1], [], saved, {7}, {7}, []);
            var g3 := Solo(One(1, 0, 0, 0, [e2], 0), [], [], StartSave(), {}, {}, [m1, m2]);
            && Leads(Pair(h2, g3, net), WriteStep(0, 7), Pair(h3, g3, net))
            && Leads(Pair(h3, g3, net), CommitStep(0, 0), Pair(h4, g3, net))
            && Leads(Pair(h4, g3, net), NotifyStep(0, 7), Pair(h5, g3, net))
  {
    hide Send, Loaded, Written, QueueTotal, Receive, SaveSucceeded;
    UnsavedSendQueues(m1, m2);
    var ack0, ack1, e2 := Elem(4, 0, 0, []), Elem(4, 0, 1, []), Elem(4, 1, 0, m2);
    var net := {Packet(GUEST, Elem(4, 1, 0, m1)), Packet(GUEST, e2)};
    var st := One(0, 0, 1, 0, [ack0], 7);
    var saved := Snapshot(7, st, [[m1]]);
    var h2 := Solo(One(0, 0, 1, 0, [ack0], 0), [m1], [], StartSave(), {}, {}, []);
    var h3 := Solo(st, [m1], [saved], StartSave(), {}, {7}, []);
    var h4 := Solo(st, [m1], [], saved, {7}, {7}, []);
    var g3 := Solo(One(1, 0, 0, 0, [e2], 0), [], [], StartSave(), {}, {}, [m1, m2]);
    PairOk(h2, g3, net);
    PairOk(h3, g3, net);
    PairOk(h4, g3, net);
    assert [] + [saved] == [saved] && [saved][1..] == [];
    assert {} + {7} == {7};
  }

  lemma AckDrops(m1: Payload, m2: Payload)
    requires m1 != [] && m2 != []
    ensures var ack0, ack1, e2 := Elem(4, 0, 0, []), Elem(4, 0, 1, []), Elem(4, 1, 0, m2);
            var net := {Packet(GUEST, Elem(4, 1, 0, m1)), Packet(GUEST, e2)};
            var saved := Snapshot(7, One(0, 0, 1, 0, [ack0], 7), [[m1]]);
            var h5 := Solo(One(0, 1, 1, 1, [ack0, ack1], 7), [m1], [], saved, {7}, {7}, []);
            var g3 := Solo(One(1, 0, 0, 0, [e2], 0), [], [], StartSave(), {}, {}, [m1, m2]);
            && Leads(Pair(h5, g3, net), TransmitStep(HOST, 1), Pair(h5, g3, net + {Packet(HOST, ack1)}))
            && Leads(Pair(h5, g3, net + {Packet(HOST, ack1)}), DeliverStep(Packet(HOST, ack1), false), LossyEnd(m1, m2))
  {
    hide Send, Loaded, Written, QueueTotal, Receive, Expected;
    UnsavedSendQueues(m1, m2);
    var ack0, ack1, e2 := Elem(4, 0, 0, []), Elem(4, 0, 1, []), Elem(4, 1, 0, m2);
    var net := {Packet(GUEST, Elem(4, 1, 0, m1)), Packet(GUEST, e2)};
    var saved := Snapshot(7, One(0, 0, 1, 0, [ack0], 7), [[m1]]);
    var h5 := Solo(One(0, 1, 1, 1, [ack0, ack1], 7), [m1], [], saved, {7}, {7}, []);
    var g3 := Solo(One(1, 0, 0, 0, [e2], 0), [], [], StartSave(), {}, {}, [m1, m2]);
    PairOk(h5, g3, net);
    PairOk(h5, g3, net + {Packet(HOST, ack1)});
    NotExpected(g3.st, ack1);
    assert net + {Packet(HOST, ack1)} == LossyEnd(m1, m2).net;
  }

  /** The worlds the run goes through. */
  function LossyWorlds(m1: Payload, m2: Payload): (ws: seq<World>)
    ensures |ws| == 13
  {
    var e1, e2, ack0, ack1 := Elem(4, 1, 0, m1), Elem(4, 1, 0, m2), Elem(4, 0, 0, []), Elem(4, 0, 1, []);
    var p1, p12 := {Packet(GUEST, e1)}, {Packet(GUEST, e1), Packet(GUEST, e2)};
    var st := One(0, 0, 1, 0, [ack0], 7);
    var saved := Snapshot(7, st, [[m1]]);
    var h0 := StartDevice();
    var h1 := Solo(One(0, 0, 1, 0, [], 0), [m1], [], StartSave(), {}, {}, []);
    var h2 := Solo(One(0, 0, 1, 0, [ack0], 0), [m1], [], StartSave(), {}, {}, []);
    var h3 := Solo(st, [m1], [saved], StartSave(), {}, {7}, []);
    var h4 := Solo(st, [m1], [], saved, {7}, {7}, []);
    var h5 := Solo(One(0, 1, 1, 1, [ack0, ack1], 7), [m1], [], saved, {7}, {7}, []);
    var g1 := Solo(One(1, 0, 0, 0, [e1], 0), [], [], StartSave(), {}, {}, [m1]);
    var g2 := Solo(Start(), [], [], StartSave(), {}, {}, [m1]);
    var g3 := Solo(One(1, 0, 0, 0, [e2], 0), [], [], StartSave(), {}, {}, [m1, m2]);
    [Pair(h0, h0, {}), Pair(h0, g1, {}), Pair(h0, g1, p1), Pair(h0, g2, p1), Pair(h1, g2, p1), Pair(h1, g3, p1), Pair(h1, g3, p12),
     Pair(h2, g3, p12), Pair(h3, g3, p12), Pair(h4, g3, p12), Pair(h5, g3, p12), Pair(h5, g3, p12 + {Packet(HOST, ack1)}),
     LossyEnd(m1, m2)]
  }

  lemma {:induction false} Chain(ws: seq<World>, steps: seq<Step>)
    requires |ws| == |steps| + 1 && forall k :: 0 <= k < |steps| ==> Leads(ws[k], steps[k], ws[k + 1])
    ensures Reaches(ws[0], steps, ws[|steps|])
    decreases |steps|
  {
    hide Next, Enabled;
    if steps != [] {
      assert Leads(ws[0], steps[0], ws[1]);
      Chain(ws[1..], steps[1..]);
    }
  }

  lemma LossyRun(m1: Payload, m2: Payload)
    requires m1 != [] && m2 != []
    ensures Reaches(Pair(StartDevice(), StartDevice(), {}), LossySteps(m1, m2), LossyEnd(m1, m2))
  {
    hide Leads, One, Solo, Pair, StartSave, StartDevice, Start, LossyEnd;
    GuestForgets(m1, m2);
    GuestRepeats(m1, m2);
    HostSaves(m1, m2);
    AckDrops(m1, m2);
    Chain(LossyWorlds(m1, m2), LossySteps(m1, m2));
  }

  /** A run in which a restart forgets a message already sent.  The number of `m1` is used again for
      `m2`; the peer, which has `m1`, takes `m2` for a repeat, and its acknowledgement of `m1`, once
      saved, drops `m2` from the sender's queue: nothing is left to resend and both sides count
      the same messages, but the peer never gets `m2`. */
  lemma UnsavedSendIsLost(m1: Payload, m2: Payload) returns (w0: World, w: World)
    requires m1 != [] && m2 != []
    ensures Init(w0) && Reaches(w0, LossySteps(m1, m2), w) && !CarefulRun(w0, LossySteps(m1, m2))
    ensures Shape(w) && ValidEnd(w, GUEST) && ValidEnd(w, HOST) && !StillHeld(w, GUEST)
    ensures w.devs[1].sent[0] == [m1, m2] && w.devs[1].st.recs[0].queue == [] && w.devs[0].logs[0] == [m1]
    ensures w.devs[1].st.recs[0].nextMsgID == w.devs[0].st.recs[0].lastMsgRcd == Rcd(w.devs[0], 0) == 1
  {
    hide Init, Reaches, CarefulRun;
    w0, w := Pair(StartDevice(), StartDevice(), {}), LossyEnd(m1, m2);
    StartOk();
    LossyRun(m1, m2);
    PairOk(w.devs[0], w.devs[1], w.net);
    assert PeerSafe(w, GUEST) == 1 && w.devs[1].sent[0][1] == m2;
    assert !Holds(w.devs[1].st.recs[0].queue, 1 + 1, w.devs[1].sent[0][1]);
    LossyCareless(m1, m2, w0, w);
  }

  /** Had every restart been careful, the message would be held. */
  lemma LossyCareless(m1: Payload, m2: Payload, w0: World, w: World)
    requires Init(w0) && Reaches(w0, LossySteps(m1, m2), w) && Shape(w) && ValidEnd(w, GUEST) && ValidEnd(w, HOST) && Other(GUEST) == HOST
    requires !StillHeld(w, GUEST)
    ensures !CarefulRun(w0, LossySteps(m1, m2))
  {
    hide Init, Reaches, CarefulRun, StillHeld, LossySteps;
    if CarefulRun(w0, LossySteps(m1, m2)) {
      AlwaysSafe(w0, LossySteps(m1, m2), w, GUEST);
    }
  }
}
