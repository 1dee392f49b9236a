/** Message ordering (section 4.6 of MQTT 3.1.1): QoS 1 and 2 messages are transmitted for the
  first time in the order of the publish calls. */
module Ordering {
  import opened Common
  import opened MessageFlow
  import opened QueueSteps
  import opened SendWindow
  import opened ExactlyOnce
  import opened Exchange
  import opened Identities

  /** A PUBLISH of QoS 1 or 2 that the network accepted. */
  predicate PubOk(o: Output) {
    o.Sent? && o.ok && o.packet.Publish? && o.packet.qos > 0
  }

  predicate Transmitted(log: seq<Output>, id: nat) {
    exists k :: 0 <= k < |log| && PubOk(log[k]) && log[k].packet.id == id
  }

  /** First transmissions are in publish order: a message transmitted after a younger one had
    already been transmitted before that. */
  predicate InOrder(log: seq<Output>) {
    forall i, j :: 0 <= i < j < |log| && PubOk(log[i]) && PubOk(log[j]) && log[j].packet.id < log[i].packet.id ==>
      Transmitted(log[..i], log[j].packet.id)
  }

  /** No queued message is older than a transmitted one without having been transmitted. */
  predicate Closed(q: seq<Message>, log: seq<Output>) {
    forall k, m :: 0 <= k < |log| && PubOk(log[k]) && 0 <= m < |q| && q[m].id < log[k].packet.id ==>
      Transmitted(log, q[m].id)
  }

  predicate Bounded(log: seq<Output>, nextId: nat) {
    forall k :: 0 <= k < |log| && PubOk(log[k]) ==> log[k].packet.id < nextId
  }

  predicate OrderInv(q: seq<Message>, nextId: nat, log: seq<Output>) {
    Sorted(q, nextId) && InOrder(log) && Closed(q, log) && Bounded(log, nextId)
  }

  /** The states a message of either quality of service can be in. */
  predicate TypedMessage(m: Message) {
    match m.state
    case Invalid => m.qos == 1 || m.qos == 2
    case PublishQos1 | WaitForPuback => m.qos == 1
    case PublishQos2 | WaitForPubrec | WaitForPubcomp | ResendPubrel => m.qos == 2
    case WaitForPubrel => false
  }

  predicate Typed(q: seq<Message>) {
    forall i :: 0 <= i < |q| ==> TypedMessage(q[i])
  }

  /** No message in flight comes after one that is not. */
  predicate Prefix(q: seq<Message>) {
    forall i, j :: 0 <= i < j < |q| && q[j].state != Invalid ==> q[i].state != Invalid
  }

  predicate AllSent(q: seq<Message>, log: seq<Output>) {
    forall i :: 0 <= i < |q| && q[i].state != Invalid ==> Transmitted(log, q[i].id)
  }

  predicate CommittedSent(q: seq<Message>, log: seq<Output>) {
    forall i :: 0 <= i < |q| && Committed(q[i]) ==> Transmitted(log, q[i].id)
  }

  /** Every message in flight has been transmitted or is in a state the retry pass publishes. */
  predicate Resendable(q: seq<Message>, log: seq<Output>) {
    forall i :: 0 <= i < |q| && q[i].state != Invalid ==>
      Transmitted(log, q[i].id) || q[i].state == PublishQos1 || q[i].state == PublishQos2
  }

  /** What holds of the queue and the log at all times. */
  predicate OrderedQueue(q: seq<Message>, nextId: nat, log: seq<Output>) {
    OrderInv(q, nextId, log) && Typed(q) && CommittedSent(q, log)
  }

  predicate Ordered(s: Session) {
    OrderedQueue(s.outq, s.nextId, s.log)
  }

  /** What holds while the client is active: everything in flight has been transmitted. */
  predicate FlowingQueue(q: seq<Message>, nextId: nat, log: seq<Output>) {
    OrderedQueue(q, nextId, log) && Prefix(q) && AllSent(q, log)
  }

  predicate Flowing(s: Session) {
    FlowingQueue(s.outq, s.nextId, s.log)
  }

  // ---------- appending to the log ----------

  lemma TransmittedMono(log: seq<Output>, extra: seq<Output>, id: nat)
    requires Transmitted(log, id)
    ensures Transmitted(log + extra, id)
  {
    var k :| 0 <= k < |log| && PubOk(log[k]) && log[k].packet.id == id;
    assert (log + extra)[k] == log[k];
  }

  lemma TransmittedBefore(log: seq<Output>, o: Output, id: nat)
    requires Transmitted(log + [o], id) && !(PubOk(o) && o.packet.id == id)
    ensures Transmitted(log, id)
  {
    var k :| 0 <= k < |log| + 1 && PubOk((log + [o])[k]) && (log + [o])[k].packet.id == id;
    assert log[k] == (log + [o])[k];
  }

  lemma SentMono(q: seq<Message>, log: seq<Output>, o: Output)
    ensures AllSent(q, log) ==> AllSent(q, log + [o])
    ensures CommittedSent(q, log) ==> CommittedSent(q, log + [o])
    ensures Resendable(q, log) ==> Resendable(q, log + [o])
  {
    forall i | 0 <= i < |q| && Transmitted(log, q[i].id)
      ensures Transmitted(log + [o], q[i].id)
    {
      TransmittedMono(log, [o], q[i].id);
    }
  }

  /** Anything but a successful PUBLISH leaves the order alone. */
  lemma AppendOther(q: seq<Message>, nextId: nat, log: seq<Output>, o: Output)
    requires OrderInv(q, nextId, log) && !PubOk(o)
    ensures OrderInv(q, nextId, log + [o])
  {
    var l := log + [o];
    forall i, j | 0 <= i < j < |l| && PubOk(l[i]) && PubOk(l[j]) && l[j].packet.id < l[i].packet.id
      ensures Transmitted(l[..i], l[j].packet.id)
    {
      assert l[..i] == log[..i] && l[j] == log[j] && l[i] == log[i];
    }
    forall k, m | 0 <= k < |l| && PubOk(l[k]) && 0 <= m < |q| && q[m].id < l[k].packet.id
      ensures Transmitted(l, q[m].id)
    {
      assert l[k] == log[k];
      TransmittedMono(log, [o], q[m].id);
    }
  }

  /** Transmitting a queued message keeps the order if all older queued ones have been. */
  lemma {:induction false} AppendPublish(q: seq<Message>, nextId: nat, log: seq<Output>, o: Output, i: nat)
    requires OrderInv(q, nextId, log)
    requires i < |q| && PubOk(o) && o.packet.id == q[i].id
    requires forall j :: 0 <= j < i ==> Transmitted(log, q[j].id)
    ensures OrderInv(q, nextId, log + [o]) && Transmitted(log + [o], q[i].id)
  {
    var l := log + [o];
    assert l[|log|] == o;
    forall a, b | 0 <= a < b < |l| && PubOk(l[a]) && PubOk(l[b]) && l[b].packet.id < l[a].packet.id
      ensures Transmitted(l[..a], l[b].packet.id)
    {
      assert l[..a] == log[..a] && l[a] == log[a];
      if b < |log| {
        assert l[b] == log[b];
      } else {
        assert Transmitted(log, q[i].id);
        var p :| 0 <= p < |log| && PubOk(log[p]) && log[p].packet.id == q[i].id;
        if p < a {
          assert log[..a][p] == log[p];
        }
      }
    }
    forall k, m | 0 <= k < |l| && PubOk(l[k]) && 0 <= m < |q| && q[m].id < l[k].packet.id
      ensures Transmitted(l, q[m].id)
    {
      if k < |log| {
        assert l[k] == log[k];
      } else {
        assert m < i;
      }
      TransmittedMono(log, [o], q[m].id);
    }
  }

  // ---------- changing the queue ----------

  lemma SameIdsOrder(q: seq<Message>, r: seq<Message>, nextId: nat, log: seq<Output>)
    requires SameIds(q, r) && OrderInv(q, nextId, log)
    ensures OrderInv(r, nextId, log)
  {
  }

  lemma RemoveOrder(q: seq<Message>, i: nat, nextId: nat, log: seq<Output>)
    requires i < |q| && OrderInv(q, nextId, log)
    ensures OrderInv(RemoveAt(q, i), nextId, log)
  {
    var r := RemoveAt(q, i);
    assert forall j :: 0 <= j < |r| ==> r[j].id == if j < i then q[j].id else q[j + 1].id;
    assert Sorted(r, nextId);
    forall k, m | 0 <= k < |log| && PubOk(log[k]) && 0 <= m < |r| && r[m].id < log[k].packet.id
      ensures Transmitted(log, r[m].id)
    {
      assert r[m].id == q[if m < i then m else m + 1].id;
    }
  }

  lemma RemoveFlowing(q: seq<Message>, i: nat, nextId: nat, log: seq<Output>)
    requires i < |q| && FlowingQueue(q, nextId, log)
    ensures FlowingQueue(RemoveAt(q, i), nextId, log)
  {
    var r := RemoveAt(q, i);
    RemoveOrder(q, i, nextId, log);
    assert forall j :: 0 <= j < |r| ==> r[j] == if j < i then q[j] else q[j + 1];
  }

  lemma AppendMessage(s: Session, m: Message)
    requires m.id == s.nextId && m.state == Invalid && (m.qos == 1 || m.qos == 2)
    ensures var q := s.outq + [m];
            && (Ordered(s) ==> OrderedQueue(q, s.nextId + 1, s.log))
            && (Prefix(s.outq) ==> Prefix(q))
            && (AllSent(s.outq, s.log) ==> AllSent(q, s.log))
            && (Resendable(s.outq, s.log) ==> Resendable(q, s.log))
  {
    var q := s.outq + [m];
    assert forall i :: 0 <= i < |s.outq| ==> q[i] == s.outq[i];
  }

  // ---------- release and retry ----------

  lemma {:induction false} ReleaseOneFlowing(q: seq<Message>, i: nat, log: seq<Output>, nextId: nat)
    requires FlowingQueue(q, nextId, log)
    requires i < |q| && q[i].state == Invalid && forall j :: 0 <= j < i ==> q[j].state != Invalid
    ensures var m := Activated(q[i]);
            var q1 := q[i := m];
            && FlowingQueue(q1, nextId, log + [Sent(ToPacket(m), true)])
            && forall j :: 0 <= j < i + 1 ==> q1[j].state != Invalid
  {
    var m := Activated(q[i]);
    var q1, o := q[i := m], Sent(ToPacket(m), true);
    AppendPublish(q, nextId, log, o, i);
    SentMono(q, log, o);
    SameIdsOrder(q, q1, nextId, log + [o]);
  }

  lemma {:induction false} ReleaseFlowing(q: seq<Message>, i: nat, quota: int, sends: nat, log: seq<Output>,
                                           nextId: nat, net: Network)
    requires i <= |q| && Reliable(net, 0)
    requires FlowingQueue(q, nextId, log)
    requires forall j :: 0 <= j < i ==> q[j].state != Invalid
    ensures var r := ReleaseAt(q, i, quota, true, sends, log, net);
            FlowingQueue(r.q, nextId, r.log)
    decreases |q| - i
  {
    if i == |q| || quota <= 0 {
      ReleaseAtStop(q, i, quota, true, sends, log, net);
    } else if q[i].state != Invalid {
      ReleaseAtSkip(q, i, quota, true, sends, log, net);
      ReleaseFlowing(q, i + 1, quota, sends, log, nextId, net);
    } else {
      ReleaseAtSend(q, i, quota, true, sends, log, net);
      ReleaseOneFlowing(q, i, log, nextId);
      var m := Activated(q[i]);
      ReleaseFlowing(q[i := m], i + 1, Decrement(quota), sends + 1, log + [Sent(ToPacket(m), true)], nextId, net);
    }
  }

  lemma ReleaseKeepsFlowing(s: Session, net: Network)
    requires s.sock && Reliable(net, 0) && Flowing(s)
    ensures Flowing(Release(s, net).s)
  {
    ReleaseAtStart(s.outq, s.outQuota, true, s.sends, s.log, net);
    ReleaseFlowing(s.outq, 0, s.outQuota, s.sends, s.log, s.nextId, net);
  }

  /** Sending again, flagged as a duplicate, whatever message i calls for. */
  lemma {:induction false} RetryOneOrdered(q: seq<Message>, i: nat, log: seq<Output>, nextId: nat)
    requires i < |q| && RetryPacket(q[i]).Some?
    requires OrderInv(q, nextId, log) && Typed(q) && Prefix(q) && Resendable(q, log)
    requires forall j :: 0 <= j < i && q[j].state != Invalid ==> Transmitted(log, q[j].id)
    ensures var q1, log1 := q[i := q[i].(dup := true)], log + [Sent(RetryPacket(q[i]).value, true)];
            && OrderInv(q1, nextId, log1) && Typed(q1) && Prefix(q1) && Resendable(q1, log1)
            && forall j :: 0 <= j <= i && q1[j].state != Invalid ==> Transmitted(log1, q1[j].id)
  {
    var q1, o := q[i := q[i].(dup := true)], Sent(RetryPacket(q[i]).value, true);
    if PubOk(o) {
      AppendPublish(q, nextId, log, o, i);
    } else {
      AppendOther(q, nextId, log, o);
      TransmittedMono(log, [o], q[i].id);
    }
    SentMono(q, log, o);
    forall j | 0 <= j < i && q[j].state != Invalid
      ensures Transmitted(log + [o], q[j].id)
    {
      TransmittedMono(log, [o], q[j].id);
    }
    SameIdsOrder(q, q1, nextId, log + [o]);
  }

  /** The retry pass transmits, in queue order, whatever in flight has not been transmitted. */
  lemma {:induction false} RetryFlowing(q: seq<Message>, i: nat, sends: nat, log: seq<Output>,
                                         nextId: nat, net: Network)
    requires i <= |q| && Reliable(net, 0)
    requires OrderInv(q, nextId, log) && Typed(q) && Prefix(q) && Resendable(q, log)
    requires forall j :: 0 <= j < i && q[j].state != Invalid ==> Transmitted(log, q[j].id)
    ensures var r := RetryAt(q, i, true, sends, log, net);
            FlowingQueue(r.q, nextId, r.log)
    decreases |q| - i
  {
    if i == |q| {
      assert q[..i] + [] == q && log + [] == log;
    } else {
      RetryAtStep(q, i, true, sends, log, net);
      var p := RetryPacket(q[i]);
      if p.None? {
        RetryFlowing(q, i + 1, sends, log, nextId, net);
      } else {
        RetryOneOrdered(q, i, log, nextId);
        RetryFlowing(q[i := q[i].(dup := true)], i + 1, sends + 1, log + [Sent(p.value, true)], nextId, net);
      }
    }
  }

  lemma RetryMakesFlowing(s: Session, net: Network)
    requires s.sock && Reliable(net, 0)
    requires Ordered(s) && Prefix(s.outq) && Resendable(s.outq, s.log)
    ensures Flowing(Retry(s, net))
  {
    RetryAtStart(s.outq, true, s.sends, s.log, net);
    RetryFlowing(s.outq, 0, s.sends, s.log, s.nextId, net);
  }

  /** The publish attempts of a log, as identities. */
  function PublishIds(log: seq<Output>): seq<nat> {
    if log == [] then []
    else (if log[0].Sent? && log[0].packet.Publish? then [log[0].packet.id] else []) + PublishIds(log[1..])
  }

  predicate Increasing(ids: seq<nat>) {
    forall i, j :: 0 <= i < j < |ids| ==> ids[i] < ids[j]
  }

  predicate AllAtLeast(ids: seq<nat>, low: nat) {
    forall i :: 0 <= i < |ids| ==> low <= ids[i]
  }

  lemma ConsIncreasing(id: nat, ids: seq<nat>)
    requires Increasing(ids) && AllAtLeast(ids, id + 1)
    ensures Increasing([id] + ids) && AllAtLeast([id] + ids, id)
  {
  }

  lemma PublishIdsCons(o: Output, log: seq<Output>)
    ensures PublishIds([o] + log) ==
      if o.Sent? && o.packet.Publish? then [o.packet.id] + PublishIds(log) else PublishIds(log)
  {
    assert ([o] + log)[1..] == log;
    assert [] + PublishIds(log) == PublishIds(log);
  }

  /** Each retry pass sends in queue order: what it publishes is in the order of the publish calls. */
  lemma {:induction false} RetryPassInOrder(q: seq<Message>, nextId: nat, sock: bool, sends: nat, net: Network)
    requires Sorted(q, nextId)
    ensures var ids := PublishIds(RetryQueue(q, sock, sends, net).log);
            Increasing(ids) && (if q == [] then ids == [] else AllAtLeast(ids, q[0].id))
    decreases |q|
  {
    if q != [] {
      var t, p := q[1..], RetryPacket(q[0]);
      assert forall i :: 0 <= i < |t| ==> t[i] == q[i + 1];
      var next := if p.None? then sends else sends + 1;
      RetryPassInOrder(t, nextId, sock, next, net);
      var rest := RetryQueue(t, sock, next, net).log;
      assert AllAtLeast(PublishIds(rest), q[0].id + 1);
      ConsIncreasing(q[0].id, PublishIds(rest));
      if p.Some? {
        PublishIdsCons(Sent(p.value, sock && net(sends)), rest);
      }
    }
  }

  // ---------- publishing ----------

  /** Offline, or with nothing left of the quota: no PUBLISH succeeds. */
  lemma {:induction false} ReleaseSilent(q: seq<Message>, i: nat, quota: int, sock: bool, sends: nat, log: seq<Output>,
                                          nextId: nat, net: Network)
    requires i <= |q| && (!sock || quota == 0)
    requires OrderedQueue(q, nextId, log)
    ensures var r := ReleaseAt(q, i, quota, sock, sends, log, net);
            && OrderedQueue(r.q, nextId, r.log)
            && (quota == 0 ==> r.q == q && r.log == log)
    decreases |q| - i
  {
    if i == |q| || quota <= 0 {
      ReleaseAtStop(q, i, quota, sock, sends, log, net);
    } else if q[i].state != Invalid {
      ReleaseAtSkip(q, i, quota, sock, sends, log, net);
      ReleaseSilent(q, i + 1, quota, sock, sends, log, nextId, net);
    } else {
      ReleaseAtSend(q, i, quota, sock, sends, log, net);
      var m := Activated(q[i]);
      var q1, o := q[i := m], Sent(ToPacket(m), false);
      AppendOther(q, nextId, log, o);
      SentMono(q, log, o);
      SameIdsOrder(q, q1, nextId, log + [o]);
    }
  }

  lemma NextIdOrder(q: seq<Message>, nextId: nat, log: seq<Output>)
    requires OrderInv(q, nextId, log)
    ensures OrderInv(q, nextId + 1, log)
  {
  }

  lemma PublishFlowing(s: Session, req: Request, net: Network)
    requires s.sock && Reliable(net, 0) && Flowing(s)
    ensures var t := PublishStep(s, req, net).s; Flowing(t) && t.sock
  {
    var mid := NextMid(s.lastMid);
    var m := Message(s.nextId, mid, req.qos, Invalid, false, req.body);
    if req.qos == 1 || req.qos == 2 {
      AppendMessage(s, m);
      var s1 := s.(lastMid := mid, nextId := s.nextId + 1, outq := s.outq + [m], outLen := s.outLen + 1);
      ReleaseKeepsFlowing(s1, net);
    } else if req.qos == 0 {
      var o := Sent(ToPacket(m), true);
      NextIdOrder(s.outq, s.nextId, s.log);
      AppendOther(s.outq, s.nextId + 1, s.log, o);
      SentMono(s.outq, s.log, o);
    }
  }

  lemma {:induction false} RunAppFlowing(s: Session, app: seq<Request>, net: Network)
    requires s.sock && Reliable(net, 0) && Flowing(s)
    ensures var t := RunApp(s, app, net); Flowing(t) && t.sock
    decreases |app|
  {
    if app != [] {
      PublishFlowing(s, app[0], net);
      RunAppFlowing(PublishStep(s, app[0], net).s, app[1..], net);
    }
  }

  lemma NoteFlowing(s: Session, o: Output)
    requires Flowing(s) && !PubOk(o)
    ensures Flowing(s.(log := s.log + [o]))
  {
    AppendOther(s.outq, s.nextId, s.log, o);
    SentMono(s.outq, s.log, o);
  }

  lemma CallbackFlowing(s: Session, o: Output, app: seq<Request>, net: Network)
    requires s.sock && Reliable(net, 0) && Flowing(s) && !o.Sent?
    ensures var t := RunApp(s.(log := s.log + [o]), app, net); Flowing(t) && t.sock
  {
    NoteFlowing(s, o);
    RunAppFlowing(s.(log := s.log + [o]), app, net);
  }

  // ---------- handlers ----------

  lemma PubackcompFlowing(s: Session, a: Ack, qos: int, app: seq<Request>, net: Network)
    requires s.sock && Reliable(net, 0) && Flowing(s)
    ensures Flowing(PubackcompStep(s, a, qos, app, net).s)
  {
    if s.cs == Active && a.Ack? && a.mid != 0 {
      var d := RemoveOut(s.(outQuota := Increment(s.outQuota, s.outMax)), a.mid, qos);
      if d.rc == Success {
        RemoveFlowing(s.outq, FirstMid(s.outq, a.mid), s.nextId, s.log);
        CallbackFlowing(d.s, OnPublish(a.mid), app, net);
        ReleaseKeepsFlowing(RunApp(d.s.(log := d.s.log + [OnPublish(a.mid)]), app, net), net);
      } else if d.rc == NotFound {
        ReleaseKeepsFlowing(d.s, net);
      }
    }
  }

  lemma CommittedFlowing(s: Session, mid: nat)
    requires Flowing(s) && (NamesInFlight(s, mid, 2) || WrongQos(s, mid, 2) || FirstMid(s.outq, mid) == |s.outq|)
    ensures Flowing(UpdateOut(s, mid, WaitForPubcomp, 2).s)
  {
    var u := UpdateOut(s, mid, WaitForPubcomp, 2);
    if u.rc == Success {
      SameIdsOrder(s.outq, u.s.outq, s.nextId, s.log);
    }
  }

  lemma RejectedFlowing(s: Session, mid: nat, app: seq<Request>, net: Network)
    requires s.sock && Reliable(net, 0) && Flowing(s)
    ensures var d := RemoveOut(s, mid, 2);
            var t := if d.rc == Success then RunApp(d.s.(log := d.s.log + [OnPublish(mid)]), app, net) else d.s;
            Flowing(Release(t.(outQuota := Increment(t.outQuota, t.outMax)), net).s)
  {
    var d := RemoveOut(s, mid, 2);
    var t := d.s;
    if d.rc == Success {
      RemoveFlowing(s.outq, FirstMid(s.outq, mid), s.nextId, s.log);
      CallbackFlowing(d.s, OnPublish(mid), app, net);
      t := RunApp(d.s.(log := d.s.log + [OnPublish(mid)]), app, net);
    }
    ReleaseKeepsFlowing(t.(outQuota := Increment(t.outQuota, t.outMax)), net);
  }

  lemma PubrecFlowing(s: Session, a: Ack, app: seq<Request>, net: Network)
    requires s.sock && Reliable(net, 0) && Flowing(s) && FairPubrec(s, a)
    ensures Flowing(PubrecStep(s, a, app, net).s)
  {
    if s.cs == Active && a.Ack? && a.mid != 0 {
      if a.reason < 0x80 || s.protocol != Mqtt5 {
        CommittedFlowing(s, a.mid);
        NoteFlowing(UpdateOut(s, a.mid, WaitForPubcomp, 2).s, Sent(Pubrel(a.mid), true));
      } else {
        RejectedFlowing(s, a.mid, app, net);
      }
    }
  }

  lemma IncomingPublishFlowing(s: Session, p: Received, app: seq<Request>, net: Network)
    requires s.sock && Reliable(net, 0) && Flowing(s) && p.RecvPublish?
    ensures Flowing(HandleStep(s, p, app, net).s)
  {
    if s.cs == Active && !p.bad {
      var m := Message(s.nextId, if p.qos > 0 then p.mid else 0, p.qos, Invalid, false, p.body);
      var s1 := s.(nextId := s.nextId + 1);
      NextIdOrder(s.outq, s.nextId, s.log);
      if p.qos == 0 {
        CallbackFlowing(s1, OnMessage(m), app, net);
      } else if p.qos == 1 {
        var r := Send(s1.(inQuota := Increment(Decrement(s1.inQuota), s1.inMax)), Puback(m.mid), net);
        NoteFlowing(s1, Sent(Puback(m.mid), true));
        CallbackFlowing(r.s, OnMessage(m), app, net);
      } else if p.qos == 2 {
        NoteFlowing(s1, Sent(Pubrec(m.mid), true));
      }
    }
  }

  lemma PubrelFlowing(s: Session, a: Ack, app: seq<Request>, net: Network)
    requires s.sock && Reliable(net, 0) && Flowing(s)
    ensures Flowing(PubrelStep(s, a, app, net).s)
  {
    if s.cs == Active && a.Ack? && a.mid != 0 {
      var r := Send(s.(inQuota := Increment(s.inQuota, s.inMax)), Pubcomp(a.mid), net);
      NoteFlowing(s, Sent(Pubcomp(a.mid), true));
      assert r.rc == Success && Flowing(r.s);
      var d := RemoveIn(r.s, a.mid, 2);
      if d.rc == Success {
        CallbackFlowing(d.s, OnMessage(r.s.inq[FirstMid(r.s.inq, a.mid)]), app, net);
      }
    }
  }

  /** What a reset does to each message. */
  lemma ResetEach(s: Session, quotaOnly: bool)
    ensures var q, r := s.outq, Reset(s, quotaOnly).outq;
      && |r| == |q|
      && forall i :: 0 <= i < |q| ==>
           r[i] == if i >= s.outMax then q[i].(state := Invalid) else if quotaOnly then q[i] else ResetState(q[i])
  {
    ResetPositions(s.outq, s.outMax, quotaOnly);
  }

  lemma ResetOrdered(s: Session, quotaOnly: bool)
    requires Ordered(s)
    ensures Ordered(Reset(s, quotaOnly))
  {
    var q, r := s.outq, Reset(s, quotaOnly).outq;
    ResetEach(s, quotaOnly);
    SameIdsOrder(q, r, s.nextId, s.log);
    forall i | 0 <= i < |q|
      ensures TypedMessage(r[i])
      ensures Committed(r[i]) ==> Committed(q[i])
    {
      assert TypedMessage(q[i]);
    }
  }

  lemma ResetPrefix(s: Session, quotaOnly: bool)
    requires Lead(s.outq) >= Min(|s.outq|, s.outMax)
    ensures Prefix(Reset(s, quotaOnly).outq)
  {
    ResetEach(s, quotaOnly);
  }

  lemma ResetSent(s: Session, quotaOnly: bool)
    requires AllSent(s.outq, s.log) && Lead(s.outq) >= Min(|s.outq|, s.outMax)
    ensures AllSent(Reset(s, quotaOnly).outq, s.log)
  {
    ResetEach(s, quotaOnly);
  }

  /** A reset makes everything in flight resendable. */
  lemma ResetResendable(s: Session, quotaOnly: bool)
    requires Ordered(s) && Lead(s.outq) >= Min(|s.outq|, s.outMax)
    requires quotaOnly ==> Resendable(s.outq, s.log)
    ensures Resendable(Reset(s, quotaOnly).outq, s.log)
  {
    var q, r := s.outq, Reset(s, quotaOnly).outq;
    ResetEach(s, quotaOnly);
    forall i | 0 <= i < |r| && r[i].state != Invalid
      ensures Transmitted(s.log, r[i].id) || r[i].state == PublishQos1 || r[i].state == PublishQos2
    {
      assert TypedMessage(q[i]) && r[i].id == q[i].id;
    }
  }

  // ---------- runs ----------

  predicate Qos0Only(app: seq<Request>) {
    forall i :: 0 <= i < |app| ==> app[i].qos != 1 && app[i].qos != 2
  }

  /** What the connect callback publishes goes out before the retry pass of the same CONNACK, so
    nothing may go out, or everything in flight must have been transmitted. */
  predicate ConnackOrderly(s: Session, rmax: Option<nat>, app: seq<Request>) {
    |s.outq| >= (if rmax.Some? then rmax.value else s.outMax) || AllSent(s.outq, s.log) || Qos0Only(app)
  }

  /** A publish that is released between a reconnect and the retry pass of its CONNACK overtakes
    whatever was queued offline, so it must find everything in flight transmitted. */
  predicate Orderly(s: Session, e: Event) {
    && Fair(s, e)
    && (e.AppPublish? && s.sock && s.cs != Active ==>
          s.outQuota == 0 || AllSent(s.outq, s.log) || Qos0Only([e.req]))
    && (e.Receive? && e.packet.RecvConnack? && !e.packet.bad ==> ConnackOrderly(s, e.packet.receiveMax, e.app))
    && (e.Receive? ==> BadIsError(e.packet))
  }

  predicate OrderState(s: Session) {
    && WindowWhileOpen(s)
    && Ordered(s)
    && (s.sock ==> Resendable(s.outq, s.log))
    && (s.sock && s.cs == Active ==> AllSent(s.outq, s.log))
  }

  lemma TailPrefix(q: seq<Message>)
    requires TailInvalid(q)
    ensures Prefix(q)
  {
  }

  lemma PublishReleases(s: Session, req: Request, m: Message, net: Network)
    requires req.qos == 1 || req.qos == 2
    requires m == Message(s.nextId, NextMid(s.lastMid), req.qos, Invalid, false, req.body)
    ensures var t := PublishStep(s, req, net).s;
            var r := ReleaseAt(s.outq + [m], 0, s.outQuota, s.sock, s.sends, s.log, net);
            t.outq == r.q && t.log == r.log && t.nextId == s.nextId + 1
  {
    ReleaseAtStart(s.outq + [m], s.outQuota, s.sock, s.sends, s.log, net);
  }

  lemma SilentRelease(q: seq<Message>, quota: int, sock: bool, sends: nat, log: seq<Output>, t: Session, net: Network)
    requires (!sock || quota == 0) && OrderedQueue(q, t.nextId, log)
    requires var r := ReleaseAt(q, 0, quota, sock, sends, log, net); t.outq == r.q && t.log == r.log
    ensures Ordered(t)
  {
    ReleaseSilent(q, 0, quota, sock, sends, log, t.nextId, net);
  }

  lemma AppendOrdered(s: Session, m: Message)
    requires Ordered(s) && m.id == s.nextId && m.state == Invalid && (m.qos == 1 || m.qos == 2)
    ensures OrderedQueue(s.outq + [m], s.nextId + 1, s.log)
  {
    AppendMessage(s, m);
  }

  /** A publish that does not go out: offline, or with the quota used up. */
  lemma PublishSilent(s: Session, req: Request, net: Network)
    requires Ordered(s) && (!s.sock || s.outQuota == 0) && (req.qos == 1 || req.qos == 2)
    ensures Ordered(PublishStep(s, req, net).s)
  {
    var m := Message(s.nextId, NextMid(s.lastMid), req.qos, Invalid, false, req.body);
    AppendOrdered(s, m);
    PublishReleases(s, req, m, net);
    SilentRelease(s.outq + [m], s.outQuota, s.sock, s.sends, s.log, PublishStep(s, req, net).s, net);
  }

  lemma PublishSilentResendable(s: Session, req: Request, net: Network)
    requires s.outQuota == 0 && (req.qos == 1 || req.qos == 2)
    requires Resendable(s.outq, s.log)
    ensures var t := PublishStep(s, req, net).s; Resendable(t.outq, t.log)
  {
    var m := Message(s.nextId, NextMid(s.lastMid), req.qos, Invalid, false, req.body);
    AppendMessage(s, m);
    PublishReleases(s, req, m, net);
    ReleaseAtStop(s.outq + [m], 0, s.outQuota, s.sock, s.sends, s.log, net);
  }

  lemma PublishQos0Ordered(s: Session, req: Request, net: Network)
    requires Ordered(s) && req.qos == 0
    ensures var t := PublishStep(s, req, net).s;
            Ordered(t) && (Resendable(s.outq, s.log) ==> Resendable(t.outq, t.log))
  {
    var m := Message(s.nextId, NextMid(s.lastMid), 0, Invalid, false, req.body);
    var o := Sent(ToPacket(m), s.sock && net(s.sends));
    NextIdOrder(s.outq, s.nextId, s.log);
    AppendOther(s.outq, s.nextId + 1, s.log, o);
    SentMono(s.outq, s.log, o);
  }

  /** What a reset leaves: nothing in flight that the retry pass would not publish in its turn. */
  predicate Retriable(s: Session) {
    Ordered(s) && Prefix(s.outq) && Resendable(s.outq, s.log)
  }

  lemma PublishHarmless(s: Session, req: Request, net: Network)
    requires Retriable(s) && (s.outQuota == 0 || Qos0Only([req]))
    ensures var t := PublishStep(s, req, net).s;
            Retriable(t) && t.outQuota == s.outQuota && t.sock == s.sock
  {
    assert Qos0Only([req]) ==> [req][0].qos != 1 && [req][0].qos != 2;
    if req.qos == 1 || req.qos == 2 {
      PublishSilent(s, req, net);
      PublishSilentResendable(s, req, net);
      AppendMessage(s, Message(s.nextId, NextMid(s.lastMid), req.qos, Invalid, false, req.body));
    } else if req.qos == 0 {
      PublishQos0Ordered(s, req, net);
    }
  }

  /** With the quota used up, or with no publish above QoS 0, a callback leaves the order alone. */
  lemma {:induction false} RunAppHarmless(s: Session, app: seq<Request>, net: Network)
    requires Retriable(s) && (s.outQuota == 0 || Qos0Only(app))
    ensures var t := RunApp(s, app, net); Retriable(t) && t.sock == s.sock
    decreases |app|
  {
    if app != [] {
      var t := PublishStep(s, app[0], net).s;
      assert Qos0Only(app) ==> Qos0Only([app[0]]) && Qos0Only(app[1..]);
      PublishHarmless(s, app[0], net);
      RunAppHarmless(t, app[1..], net);
    }
  }

  lemma ConnectingRetriable(s: Session, code: nat, rmax: Option<nat>)
    requires OrderState(s) && s.sock && MaximumOk(s, RecvConnack(false, code, rmax))
    ensures var t := Connecting(s, rmax);
            && Retriable(t) && t.sock
            && (AllSent(s.outq, s.log) ==> AllSent(t.outq, t.log))
  {
    var s1 := if rmax.Some? then s.(outMax := rmax.value) else s;
    ResetOrdered(s1, true);
    ResetPrefix(s1, true);
    ResetResendable(s1, true);
    if AllSent(s.outq, s.log) {
      ResetSent(s1, true);
    }
  }

  lemma ConnectingQuota(s: Session, rmax: Option<nat>)
    ensures var t := Connecting(s, rmax);
            t.outQuota == t.outMax - Min(|s.outq|, t.outMax)
            && t.outMax == if rmax.Some? then rmax.value else s.outMax
  {
    ResetPositions(s.outq, if rmax.Some? then rmax.value else s.outMax, true);
  }

  lemma ConnackCallback(s: Session, code: nat, rmax: Option<nat>, app: seq<Request>, net: Network)
    requires OrderState(s) && s.sock && Reliable(net, 0)
    requires MaximumOk(s, RecvConnack(false, code, rmax)) && ConnackOrderly(s, rmax, app)
    ensures var t := RunApp(Connecting(s, rmax), app, net); Retriable(t) && t.sock
  {
    var t := Connecting(s, rmax);
    ConnectingRetriable(s, code, rmax);
    if AllSent(s.outq, s.log) {
      RunAppFlowing(t, app, net);
    } else {
      ConnectingQuota(s, rmax);
      RunAppHarmless(t, app, net);
    }
  }

  lemma ConnackFlowing(s: Session, code: nat, rmax: Option<nat>, app: seq<Request>, net: Network)
    requires OrderState(s) && s.sock && Reliable(net, 0)
    requires MaximumOk(s, RecvConnack(false, code, rmax)) && ConnackOrderly(s, rmax, app)
    ensures var r := ConnackStep(s, false, code, rmax, app, net);
            Ordered(r.s) && (r.rc == Success ==> Flowing(r.s))
  {
    ConnackCallback(s, code, rmax, app, net);
    var t := RunApp(Connecting(s, rmax), app, net);
    if code == 0 {
      RetryMakesFlowing(if t.cs == Disconnecting then t else t.(cs := Active), net);
    }
  }

  lemma PublishOrdered(s: Session, req: Request, net: Network)
    requires OrderState(s) && Reliable(net, 0) && Orderly(s, AppPublish(req)) && s.outMax > 0
    ensures OrderState(PublishStep(s, req, net).s)
  {
    FairStepWindow(s, AppPublish(req), net);
    if s.sock && AllSent(s.outq, s.log) {
      TailPrefix(s.outq);
      PublishFlowing(s, req, net);
    } else {
      PublishKeepsState(s, req, net);
      assert [req][0] == req;
      if req.qos == 1 || req.qos == 2 {
        PublishSilent(s, req, net);
        if s.sock && Resendable(s.outq, s.log) {
          PublishSilentResendable(s, req, net);
        }
      } else if req.qos == 0 {
        PublishQos0Ordered(s, req, net);
      }
    }
  }

  lemma PublishKeepsState(s: Session, req: Request, net: Network)
    ensures var t := PublishStep(s, req, net).s; t.sock == s.sock && t.cs == s.cs
  {
  }

  lemma ReceiveOrdered(s: Session, p: Received, app: seq<Request>, net: Network)
    requires OrderState(s) && s.sock && Reliable(net, 0) && Orderly(s, Receive(p, app)) && s.outMax > 0
    ensures OrderState(LoopReadStep(s, p, app, net))
  {
    FairStepWindow(s, Receive(p, app), net);
    TailPrefix(s.outq);
    match p
    case RecvConnack(bad, code, rmax) => if !bad { ConnackFlowing(s, code, rmax, app, net); }
    case RecvPuback(a) => if s.cs == Active { PubackcompFlowing(s, a, 1, app, net); }
    case RecvPubcomp(a) => if s.cs == Active { PubackcompFlowing(s, a, 2, app, net); }
    case RecvPubrec(a) => if s.cs == Active { PubrecFlowing(s, a, app, net); }
    case RecvPubrel(a) => if s.cs == Active { PubrelFlowing(s, a, app, net); }
    case RecvPublish(_, _, _, _) => if s.cs == Active { IncomingPublishFlowing(s, p, app, net); }
  }

  lemma StepOrdered(s: Session, e: Event, net: Network)
    requires OrderState(s) && Reliable(net, 0) && Orderly(s, e) && s.outMax > 0
    ensures OrderState(Step(s, e, net))
  {
    match e
    case AppPublish(req) => PublishOrdered(s, req, net);
    case Receive(p, app) => if s.sock { ReceiveOrdered(s, p, app, net); }
    case SocketLost =>
    case Reconnect(refused) =>
      FairStepWindow(s, e, net);
      ResetOrdered(s, false);
      ResetResendable(s, false);
      var t := Reset(s, false);
      AppendOther(t.outq, t.nextId, t.log, Sent(Connect, true));
      SentMono(t.outq, t.log, Sent(Connect, true));
    case AppDisconnect =>
      if s.sock {
        AppendOther(s.outq, s.nextId, s.log, Sent(Disconnect, true));
        SentMono(s.outq, s.log, Sent(Disconnect, true));
      }
  }

  predicate OrderlyRun(s: Session, events: seq<Event>, net: Network)
    decreases |events|
  {
    events == [] ||
    (&& Orderly(s, events[0])
     && Step(s, events[0], net).outMax > 0
     && OrderlyRun(Step(s, events[0], net), events[1..], net))
  }

  lemma {:induction false} RunOrdered(s: Session, events: seq<Event>, net: Network)
    requires OrderState(s) && Reliable(net, 0) && OrderlyRun(s, events, net) && s.outMax > 0
    ensures OrderState(Run(s, events, net))
    decreases |events|
  {
    if events != [] {
      StepOrdered(s, events[0], net);
      RunOrdered(Step(s, events[0], net), events[1..], net);
    }
  }

  /** Over every orderly run from the initial session, first transmissions are in the order of
    the publish calls. */
  lemma FirstTransmissionsInOrder(protocol: ProtocolVersion, outMax: nat, inMax: nat, events: seq<Event>, net: Network)
    requires outMax > 0 && Reliable(net, 0) && OrderlyRun(Initial(protocol, outMax, inMax), events, net)
    ensures InOrder(Run(Initial(protocol, outMax, inMax), events, net).log)
  {
    RunOrdered(Initial(protocol, outMax, inMax), events, net);
  }
}
