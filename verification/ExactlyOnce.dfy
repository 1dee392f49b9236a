/** QoS 2 delivery to the broker: a message whose PUBREC has been processed is never published
  again, whatever happens afterwards (section 4.3.3 of MQTT 3.1.1). */
module ExactlyOnce {
  import opened Common
  import opened Identities
  import opened MessageFlow
  import opened SendWindow

  /** A success PUBREC has been processed for this message. */
  predicate Committed(m: Message) {
    m.qos == 2 && (m.state == WaitForPubcomp || m.state == ResendPubrel)
  }

  /** Wherever the message with this identity still is in the queue, it is committed and inside
    the part of the queue that a reset keeps. */
  predicate Safe(q: seq<Message>, max: nat, id: nat) {
    forall i :: 0 <= i < |q| && q[i].id == id ==> i < max && Committed(q[i])
  }

  predicate SafeSession(s: Session, id: nat) {
    id < s.nextId && Safe(s.outq, s.outMax, id)
  }

  predicate IsPublish(o: Output, id: nat) {
    o.Sent? && o.packet.Publish? && o.packet.id == id
  }

  predicate NoPublish(log: seq<Output>, id: nat) {
    forall k :: 0 <= k < |log| ==> !IsPublish(log[k], id)
  }

  /** From s to t the log has only grown, by no attempt to publish this message. */
  predicate Quiet(s: Session, t: Session, id: nat) {
    s.log <= t.log && NoPublish(t.log[|s.log|..], id)
  }

  /** `SafeSession` is kept and nothing is published. */
  predicate StaysSafe(s: Session, t: Session, id: nat) {
    SafeSession(t, id) && Quiet(s, t, id)
  }

  lemma QuietTrans(s: Session, t: Session, u: Session, id: nat)
    requires Quiet(s, t, id) && Quiet(t, u, id)
    ensures Quiet(s, u, id)
  {
    var a, b := t.log[|s.log|..], u.log[|t.log|..];
    assert u.log[|s.log|..] == a + b;
  }

  lemma QuietBy(s: Session, t: Session, extra: seq<Output>, id: nat)
    requires t.log == s.log + extra && NoPublish(extra, id)
    ensures Quiet(s, t, id)
  {
    assert t.log[|s.log|..] == extra;
  }

  lemma {:induction false} ReleaseQuiet(q: seq<Message>, quota: int, sock: bool, sends: nat, net: Network, id: nat)
    requires forall i :: 0 <= i < |q| && q[i].id == id ==> q[i].state != Invalid
    ensures var r := ReleaseQueue(q, quota, sock, sends, net);
            && NoPublish(r.log, id)
            && forall i :: 0 <= i < |q| ==> r.q[i].id == q[i].id && (q[i].id == id ==> r.q[i] == q[i])
    decreases |q|
  {
    if q != [] && quota > 0 {
      var t := q[1..];
      assert forall i :: 0 <= i < |t| ==> t[i] == q[i + 1];
      if q[0].qos > 0 && q[0].state == Invalid {
        if sock && net(sends) {
          ReleaseQuiet(t, Decrement(quota), sock, sends + 1, net, id);
        }
      } else {
        ReleaseQuiet(t, quota, sock, sends, net, id);
      }
    }
  }

  lemma ReleaseSafe(s: Session, net: Network, id: nat)
    requires SafeSession(s, id)
    ensures StaysSafe(s, Release(s, net).s, id)
  {
    var r := ReleaseQueue(s.outq, s.outQuota, s.sock, s.sends, net);
    ReleaseQuiet(s.outq, s.outQuota, s.sock, s.sends, net, id);
    QuietBy(s, Release(s, net).s, r.log, id);
  }

  lemma PublishSafe(s: Session, req: Request, net: Network, id: nat)
    requires SafeSession(s, id)
    ensures StaysSafe(s, PublishStep(s, req, net).s, id)
  {
    if req.qos == 1 || req.qos == 2 {
      var mid := NextMid(s.lastMid);
      var m := Message(s.nextId, mid, req.qos, Invalid, false, req.body);
      var s1 := s.(lastMid := mid, nextId := s.nextId + 1, outq := s.outq + [m], outLen := s.outLen + 1);
      ReleaseSafe(s1, net, id);
    }
  }

  lemma {:induction false} RunAppSafe(s: Session, app: seq<Request>, net: Network, id: nat)
    requires SafeSession(s, id)
    ensures StaysSafe(s, RunApp(s, app, net), id)
    decreases |app|
  {
    if app != [] {
      var t := PublishStep(s, app[0], net).s;
      PublishSafe(s, app[0], net, id);
      RunAppSafe(t, app[1..], net, id);
      QuietTrans(s, t, RunApp(t, app[1..], net), id);
    }
  }

  /** A callback followed by what the application publishes from it. */
  lemma CallbackSafe(s: Session, o: Output, app: seq<Request>, net: Network, id: nat)
    requires SafeSession(s, id) && !o.Sent?
    ensures StaysSafe(s, RunApp(s.(log := s.log + [o]), app, net), id)
  {
    var s1 := s.(log := s.log + [o]);
    QuietBy(s, s1, [o], id);
    RunAppSafe(s1, app, net, id);
    QuietTrans(s, s1, RunApp(s1, app, net), id);
  }

  lemma RemoveSafe(q: seq<Message>, max: nat, i: nat, id: nat)
    requires i < |q| && Safe(q, max, id)
    ensures Safe(RemoveAt(q, i), max, id)
  {
    var r := RemoveAt(q, i);
    assert forall j :: 0 <= j < |r| ==> r[j] == if j < i then q[j] else q[j + 1];
  }

  lemma PubackcompSafe(s: Session, a: Ack, qos: int, app: seq<Request>, net: Network, id: nat)
    requires SafeSession(s, id)
    ensures StaysSafe(s, PubackcompStep(s, a, qos, app, net).s, id)
  {
    if s.cs == Active && a.Ack? && a.mid != 0 {
      var s1 := s.(outQuota := Increment(s.outQuota, s.outMax));
      var d := RemoveOut(s1, a.mid, qos);
      if d.rc == Success {
        RemoveSafe(s.outq, s.outMax, FirstMid(s.outq, a.mid), id);
        var t := RunApp(d.s.(log := d.s.log + [OnPublish(a.mid)]), app, net);
        CallbackSafe(d.s, OnPublish(a.mid), app, net, id);
        ReleaseSafe(t, net, id);
        QuietTrans(d.s, t, Release(t, net).s, id);
      } else if d.rc == NotFound {
        ReleaseSafe(d.s, net, id);
      }
    }
  }

  lemma RejectedSafe(s: Session, mid: nat, app: seq<Request>, net: Network, id: nat)
    requires SafeSession(s, id)
    ensures var d := RemoveOut(s, mid, 2);
            var t := if d.rc == Success then RunApp(d.s.(log := d.s.log + [OnPublish(mid)]), app, net) else d.s;
            StaysSafe(s, Release(t.(outQuota := Increment(t.outQuota, t.outMax)), net).s, id)
  {
    var d := RemoveOut(s, mid, 2);
    var t := d.s;
    if d.rc == Success {
      RemoveSafe(s.outq, s.outMax, FirstMid(s.outq, mid), id);
      t := RunApp(d.s.(log := d.s.log + [OnPublish(mid)]), app, net);
      CallbackSafe(d.s, OnPublish(mid), app, net, id);
    }
    var u := t.(outQuota := Increment(t.outQuota, t.outMax));
    ReleaseSafe(u, net, id);
    QuietTrans(s, u, Release(u, net).s, id);
  }

  lemma CommittedSafe(s: Session, mid: nat, net: Network, id: nat)
    requires SafeSession(s, id)
    ensures var u := UpdateOut(s, mid, WaitForPubcomp, 2);
            StaysSafe(s, u.s, id) && StaysSafe(s, Send(u.s, Pubrel(mid), net).s, id)
  {
    var u := UpdateOut(s, mid, WaitForPubcomp, 2).s;
    QuietBy(s, Send(u, Pubrel(mid), net).s, [Sent(Pubrel(mid), u.sock && net(u.sends))], id);
  }

  lemma PubrecSafe(s: Session, a: Ack, app: seq<Request>, net: Network, id: nat)
    requires SafeSession(s, id)
    ensures StaysSafe(s, PubrecStep(s, a, app, net).s, id)
  {
    if s.cs == Active && a.Ack? && a.mid != 0 {
      if a.reason < 0x80 || s.protocol != Mqtt5 {
        CommittedSafe(s, a.mid, net, id);
      } else {
        RejectedSafe(s, a.mid, app, net, id);
      }
    }
  }

  lemma IncomingPublishSafe(s: Session, p: Received, app: seq<Request>, net: Network, id: nat)
    requires SafeSession(s, id) && p.RecvPublish?
    ensures StaysSafe(s, HandleStep(s, p, app, net).s, id)
  {
    if s.cs == Active && !p.bad && 0 <= p.qos <= 1 {
      var m := Message(s.nextId, if p.qos > 0 then p.mid else 0, p.qos, Invalid, false, p.body);
      var s1 := s.(nextId := s.nextId + 1);
      if p.qos == 0 {
        CallbackSafe(s1, OnMessage(m), app, net, id);
      } else {
        var r := Send(s1.(inQuota := Increment(Decrement(s1.inQuota), s1.inMax)), Puback(p.mid), net);
        QuietBy(s, r.s, [Sent(Puback(p.mid), r.rc == Success)], id);
        CallbackSafe(r.s, OnMessage(m), app, net, id);
        QuietTrans(s, r.s, RunApp(r.s.(log := r.s.log + [OnMessage(m)]), app, net), id);
      }
    }
  }

  lemma PubrelSafe(s: Session, a: Ack, app: seq<Request>, net: Network, id: nat)
    requires SafeSession(s, id)
    ensures StaysSafe(s, PubrelStep(s, a, app, net).s, id)
  {
    if s.cs == Active && a.Ack? && a.mid != 0 {
      var r := Send(s.(inQuota := Increment(s.inQuota, s.inMax)), Pubcomp(a.mid), net);
      QuietBy(s, r.s, [Sent(Pubcomp(a.mid), r.rc == Success)], id);
      var d := RemoveIn(r.s, a.mid, 2);
      if d.rc == Success && r.rc == Success {
        var o := OnMessage(r.s.inq[FirstMid(r.s.inq, a.mid)]);
        CallbackSafe(d.s, o, app, net, id);
        QuietTrans(s, d.s, RunApp(d.s.(log := d.s.log + [o]), app, net), id);
      }
    }
  }

  lemma ResetSafe(s: Session, quotaOnly: bool, id: nat)
    requires SafeSession(s, id)
    ensures StaysSafe(s, Reset(s, quotaOnly), id)
  {
    ResetPositions(s.outq, s.outMax, quotaOnly);
  }

  lemma {:induction false} RetryQuiet(q: seq<Message>, sock: bool, sends: nat, net: Network, id: nat)
    requires forall i :: 0 <= i < |q| && q[i].id == id ==> Committed(q[i])
    ensures NoPublish(RetryQueue(q, sock, sends, net).log, id)
    decreases |q|
  {
    if q != [] {
      var t := q[1..];
      assert forall i :: 0 <= i < |t| ==> t[i] == q[i + 1];
      RetryQuiet(t, sock, if RetryPacket(q[0]).None? then sends else sends + 1, net, id);
    }
  }

  lemma RetrySafe(s: Session, net: Network, id: nat)
    requires SafeSession(s, id)
    ensures StaysSafe(s, Retry(s, net), id)
  {
    RetryKeepsStates(s.outq, s.sock, s.sends, net);
    RetryQuiet(s.outq, s.sock, s.sends, net, id);
    QuietBy(s, Retry(s, net), RetryQueue(s.outq, s.sock, s.sends, net).log, id);
  }

  /** A CONNACK leaves the send maximum as it is. */
  predicate MaximumFixed(s: Session, e: Event) {
    e.Receive? && e.packet.RecvConnack? && !e.packet.bad && e.packet.receiveMax.Some? ==>
      e.packet.receiveMax.value == s.outMax
  }

  lemma ConnackSafe(s: Session, code: nat, app: seq<Request>, net: Network, id: nat)
    requires SafeSession(s, id)
    ensures StaysSafe(s, ConnackStep(s, false, code, None, app, net).s, id)
  {
    var s1 := Reset(s, true);
    ResetSafe(s, true, id);
    var s2 := RunApp(s1, app, net);
    RunAppSafe(s1, app, net, id);
    QuietTrans(s, s1, s2, id);
    var s3 := if s2.cs == Disconnecting then s2 else s2.(cs := Active);
    RetrySafe(s3, net, id);
    QuietTrans(s, s3, Retry(s3, net), id);
  }

  /** One step of any kind, with any packet from the broker and any pattern of failing sends. */
  lemma StepSafe(s: Session, e: Event, net: Network, id: nat)
    requires SafeSession(s, id) && MaximumFixed(s, e)
    ensures StaysSafe(s, Step(s, e, net), id)
  {
    match e
    case AppPublish(req) => PublishSafe(s, req, net, id);
    case Receive(p, app) =>
      match p {
        case RecvPuback(a) => PubackcompSafe(s, a, 1, app, net, id);
        case RecvPubcomp(a) => PubackcompSafe(s, a, 2, app, net, id);
        case RecvPubrec(a) => PubrecSafe(s, a, app, net, id);
        case RecvPubrel(a) => PubrelSafe(s, a, app, net, id);
        case RecvPublish(_, _, _, _) => IncomingPublishSafe(s, p, app, net, id);
        case RecvConnack(bad, code, rmax) =>
          assert !bad ==> ConnackStep(s, bad, code, rmax, app, net) == ConnackStep(s, bad, code, None, app, net);
          if !bad { ConnackSafe(s, code, app, net, id); }
      }
    case SocketLost =>
    case Reconnect(refused) =>
      var t := Reset(s, false);
      ResetSafe(s, false, id);
      if !refused {
        var r := Send(t.(sock := true, cs := Connected), Connect, net);
        QuietBy(t, r.s, [Sent(Connect, r.rc == Success)], id);
        QuietTrans(s, t, r.s, id);
      }
    case AppDisconnect =>
  }

  predicate MaximumFixedRun(s: Session, events: seq<Event>, net: Network)
    decreases |events|
  {
    events == [] || (MaximumFixed(s, events[0]) && MaximumFixedRun(Step(s, events[0], net), events[1..], net))
  }

  lemma {:induction false} RunSafe(s: Session, events: seq<Event>, net: Network, id: nat)
    requires SafeSession(s, id) && MaximumFixedRun(s, events, net)
    ensures StaysSafe(s, Run(s, events, net), id)
    decreases |events|
  {
    if events != [] {
      var t := Step(s, events[0], net);
      StepSafe(s, events[0], net, id);
      RunSafe(t, events[1..], net, id);
      QuietTrans(s, t, Run(t, events[1..], net), id);
    }
  }

  // ---------- whole runs ----------

  /** In a session with an exact window, process a success PUBREC for a message in flight.  Then no
    later run, with any broker and any failing sends, across
    any number of reconnects, attempts to publish that message again. */
  lemma NeverPublishedAgain(s: Session, mid: nat, reason: nat, app: seq<Request>, net: Network,
                            future: seq<Event>, later: Network)
    requires Window(s) && Sorted(s.outq, s.nextId)
    requires s.sock && s.cs == Active && mid != 0 && NamesInFlight(s, mid, 2)
    requires reason < 0x80 || s.protocol != Mqtt5
    requires var t := Step(s, Receive(RecvPubrec(Ack(mid, reason)), app), net);
             MaximumFixedRun(t, future, later)
    ensures var t := Step(s, Receive(RecvPubrec(Ack(mid, reason)), app), net);
            Quiet(t, Run(t, future, later), s.outq[FirstMid(s.outq, mid)].id)
  {
    var i := FirstMid(s.outq, mid);
    var id := s.outq[i].id;
    var t := Step(s, Receive(RecvPubrec(Ack(mid, reason)), app), net);
    assert t.outq == s.outq[i := s.outq[i].(state := WaitForPubcomp)];
    assert t.nextId == s.nextId && t.outMax == s.outMax;
    assert i < s.outMax;
    RunSafe(t, future, later, id);
  }

  /** A success PUBREC for a message in flight, in a session that receives packets. */
  predicate Confirms(s: Session, mid: nat, reason: nat) {
    && s.sock && s.cs == Active && mid != 0 && NamesInFlight(s, mid, 2)
    && (reason < 0x80 || s.protocol != Mqtt5)
  }

  /** QoS 2 safety over whole runs: after any past at all, a reconnect, a fair run, and in it a
    success PUBREC for a message in flight.  No later run, with any broker and any failing sends,
    across any number of reconnects, attempts to publish that message again. */
  lemma NeverAgainAfterRecovery(protocol: ProtocolVersion, outMax: nat, inMax: nat,
                                past: seq<Event>, faulty: Network, refused: bool,
                                fair: seq<Event>, net: Network,
                                mid: nat, reason: nat, app: seq<Request>, future: seq<Event>, later: Network)
    requires RunOk(Initial(protocol, outMax, inMax), past, faulty) && Reliable(net, 0)
    requires var s := Step(Run(Initial(protocol, outMax, inMax), past, faulty), Reconnect(refused), faulty);
             && s.outMax > 0 && FairRun(s, fair, net) && Confirms(Run(s, fair, net), mid, reason)
    requires var s := Step(Run(Initial(protocol, outMax, inMax), past, faulty), Reconnect(refused), faulty);
             var t := Step(Run(s, fair, net), Receive(RecvPubrec(Ack(mid, reason)), app), net);
             MaximumFixedRun(t, future, later)
    ensures var s := Step(Run(Initial(protocol, outMax, inMax), past, faulty), Reconnect(refused), faulty);
            var u := Run(s, fair, net);
            var t := Step(u, Receive(RecvPubrec(Ack(mid, reason)), app), net);
            Quiet(t, Run(t, future, later), u.outq[FirstMid(u.outq, mid)].id)
  {
    var first := Run(Initial(protocol, outMax, inMax), past, faulty);
    var s := Step(first, Reconnect(refused), faulty);
    WindowAfterRecovery(protocol, outMax, inMax, past, faulty, refused, fair, net);
    RunSorted(Initial(protocol, outMax, inMax), past, faulty);
    StepSorted(first, Reconnect(refused), faulty);
    RunSorted(s, fair, net);
    NeverPublishedAgain(Run(s, fair, net), mid, reason, app, net, future, later);
  }

  /** The same from the initial session with a fair broker all along. */
  lemma NeverAgainFromStart(protocol: ProtocolVersion, outMax: nat, inMax: nat, fair: seq<Event>, net: Network,
                            mid: nat, reason: nat, app: seq<Request>, future: seq<Event>, later: Network)
    requires outMax > 0 && Reliable(net, 0) && FairRun(Initial(protocol, outMax, inMax), fair, net)
    requires Confirms(Run(Initial(protocol, outMax, inMax), fair, net), mid, reason)
    requires var u := Run(Initial(protocol, outMax, inMax), fair, net);
             MaximumFixedRun(Step(u, Receive(RecvPubrec(Ack(mid, reason)), app), net), future, later)
    ensures var u := Run(Initial(protocol, outMax, inMax), fair, net);
            var t := Step(u, Receive(RecvPubrec(Ack(mid, reason)), app), net);
            Quiet(t, Run(t, future, later), u.outq[FirstMid(u.outq, mid)].id)
  {
    var s := Initial(protocol, outMax, inMax);
    FairRunWindow(s, fair, net);
    RunSorted(s, fair, net);
    NeverPublishedAgain(Run(s, fair, net), mid, reason, app, net, future, later);
  }

  /** Why the message must be inside the window: a reset keeps a commitment if and only if the
    message's position is below the send maximum.  Beyond it the message falls back to Invalid,
    from which it is published anew. */
  lemma CommitmentSurvivesResetIff(s: Session, i: nat, quotaOnly: bool)
    requires i < |s.outq| && Committed(s.outq[i])
    ensures Committed(Reset(s, quotaOnly).outq[i]) <==> i < s.outMax
    ensures i >= s.outMax ==> Reset(s, quotaOnly).outq[i].state == Invalid
  {
    ResetPositions(s.outq, s.outMax, quotaOnly);
  }
}
