/** The outgoing queue over every run: in which states its messages are, and that none waits while
  quota is left. */
module InFlight {
  import opened Calls
  import opened Common
  import opened Conversation
  import opened Exchange
  import opened MessageFlow
  import opened SendWindow

  // ---------- states ----------

  /** Waiting, or in a state of the exchange of its quality of service. */
  predicate Proper(m: Message) {
    || m.state == Invalid
    || (m.qos == 1 && (m.state == WaitForPuback || m.state == PublishQos1))
    || (m.qos == 2 && (m.state == WaitForPubrec || m.state == PublishQos2
                       || m.state == WaitForPubcomp || m.state == ResendPubrel))
  }

  predicate AllProper(q: seq<Message>) {
    forall i :: 0 <= i < |q| ==> (q[i].qos == 1 || q[i].qos == 2) && Proper(q[i])
  }

  lemma {:induction false} ReleaseProper(q: seq<Message>, quota: int, sock: bool, sends: nat, net: Network)
    requires AllProper(q)
    ensures AllProper(ReleaseQueue(q, quota, sock, sends, net).q)
    decreases |q|
  {
    if q != [] && quota > 0 {
      if q[0].state == Invalid {
        ReleaseProper(q[1..], Decrement(quota), sock, sends + 1, net);
      } else {
        ReleaseProper(q[1..], quota, sock, sends, net);
      }
    }
  }

  lemma {:induction false} RunAppProper(s: Session, app: seq<Request>, net: Network)
    requires AllProper(s.outq)
    ensures AllProper(RunApp(s, app, net).outq)
    decreases |app|
  {
    if app != [] {
      var req, t := app[0], PublishStep(s, app[0], net).s;
      if req.qos == 1 || req.qos == 2 {
        var m := Message(s.nextId, NextMid(s.lastMid), req.qos, Invalid, false, req.body);
        ReleaseProper(s.outq + [m], s.outQuota, s.sock, s.sends, net);
      }
      RunAppProper(t, app[1..], net);
    }
  }

  lemma ResetProper(q: seq<Message>, quota: nat, quotaOnly: bool)
    requires AllProper(q)
    ensures AllProper(ResetOutQueue(q, quota, quotaOnly).q)
  {
    ResetPositions(q, quota, quotaOnly);
  }

  lemma RemoveProper(q: seq<Message>, i: nat)
    requires AllProper(q) && i < |q|
    ensures AllProper(RemoveAt(q, i))
  {
    var r := RemoveAt(q, i);
    assert forall j :: 0 <= j < |r| ==> r[j] == if j < i then q[j] else q[j + 1];
  }

  lemma AckProper(s: Session, a: Ack, qos: int, app: seq<Request>)
    requires AllProper(s.outq)
    ensures AllProper(AckPlan(s, a, qos, app).first.outq)
  {
    if a.Ack? && FirstMid(s.outq, a.mid) < |s.outq| {
      RemoveProper(s.outq, FirstMid(s.outq, a.mid));
    }
  }

  lemma PubrecProper(s: Session, a: Ack, app: seq<Request>, net: Network)
    requires AllProper(s.outq)
    ensures AllProper(ReceivePlan(s, RecvPubrec(a), app, net).first.outq)
  {
    if a.Ack? && FirstMid(s.outq, a.mid) < |s.outq| {
      RemoveProper(s.outq, FirstMid(s.outq, a.mid));
    }
  }

  lemma IncomingProper(s: Session, p: Received, app: seq<Request>, net: Network)
    requires p.RecvPubrel? || p.RecvPublish?
    ensures ReceivePlan(s, p, app, net).first.outq == s.outq
  {
  }

  lemma FirstProper(s: Session, e: Event, net: Network)
    requires AllProper(s.outq)
    ensures AllProper(PlanOf(s, e, net).first.outq)
  {
    match e
    case AppPublish(_) =>
    case Receive(p, app) =>
      match p {
        case RecvPuback(a) => AckProper(s, a, 1, app);
        case RecvPubcomp(a) => AckProper(s, a, 2, app);
        case RecvPubrec(a) => PubrecProper(s, a, app, net);
        case RecvConnack(_, _, rmax) => ResetProper(s.outq, if rmax.Some? then rmax.value else s.outMax, true);
        case _ => IncomingProper(s, p, app, net);
      }
    case SocketLost =>
    case Reconnect(_) => ResetProper(s.outq, s.outMax, false);
    case AppDisconnect =>
  }

  lemma CarryProper(p: Plan, net: Network)
    requires AllProper(p.first.outq)
    ensures AllProper(Carry(p, net).outq)
  {
    var u := RunApp(p.first, p.app, net);
    RunAppProper(p.first, p.app, net);
    if p.ending.ThenRelease? {
      var g := if p.ending.give then Given(u) else u;
      ReleaseProper(g.outq, g.outQuota, g.sock, g.sends, net);
    } else if p.ending.ThenRetry? {
      var v := NowActive(u);
      RetryKeepsStates(v.outq, v.sock, v.sends, net);
    }
  }

  lemma StepProper(s: Session, e: Event, net: Network)
    requires AllProper(s.outq)
    ensures AllProper(Step(s, e, net).outq)
  {
    StepIsPlan(s, e, net);
    FirstProper(s, e, net);
    CarryProper(PlanOf(s, e, net), net);
  }

  /** Over every run each queued message waits to be sent or stands somewhere in the exchange of its
    quality of service, whatever the broker acknowledges. */
  lemma {:induction false} RunProper(s: Session, events: seq<Event>, net: Network)
    requires AllProper(s.outq)
    ensures AllProper(Run(s, events, net).outq)
    decreases |events|
  {
    if events != [] {
      StepProper(s, events[0], net);
      RunProper(Step(s, events[0], net), events[1..], net);
    }
  }

  /** So after any run a reconnect and the accepted CONNACK take up every exchange that is inside the
    maximum and under way: PUBREL goes out if the PUBREC was processed, else the PUBLISH again. */
  lemma RunResumes(protocol: ProtocolVersion, outMax: nat, inMax: nat, events: seq<Event>, net: Network, i: nat)
    requires var s := Run(Initial(protocol, outMax, inMax), events, net);
             i < |s.outq| && i < s.outMax && net(s.sends) && s.outq[i].state != Invalid
    ensures var s := Run(Initial(protocol, outMax, inMax), events, net);
            var t := Step(s, Reconnect(false), net);
            var u := Step(t, Receive(RecvConnack(false, 0, None), []), net);
            var m := s.outq[i];
            Attempted(u.log, |t.log|,
                      if m.state == ResendPubrel || m.state == WaitForPubcomp then Pubrel(m.mid)
                      else Publish(m.id, m.mid, m.qos, true, m.body))
  {
    var s := Run(Initial(protocol, outMax, inMax), events, net);
    RunProper(Initial(protocol, outMax, inMax), events, net);
    ExchangesResume(s, net, i);
  }

  // ---------- nothing waits for nothing ----------

  /** A send was refused since this position of the log. */
  predicate Refused(log: seq<Output>, from: nat) {
    exists k :: from <= k < |log| && log[k].Sent? && !log[k].ok
  }

  predicate NoneWaits(q: seq<Message>) {
    forall i :: 0 <= i < |q| ==> q[i].state != Invalid
  }

  lemma NoneWaitsHead(m: Message, rest: seq<Message>)
    requires m.state != Invalid && NoneWaits(rest)
    ensures NoneWaits([m] + rest)
  {
  }

  /** No message waits while quota is left, unless a send was refused. */
  predicate Busy(t: Session, from: nat) {
    t.outQuota <= 0 || NoneWaits(t.outq) || Refused(t.log, from)
  }

  lemma {:induction false} ReleaseBusy(q: seq<Message>, quota: int, sock: bool, sends: nat, net: Network)
    requires AllProper(q)
    ensures var r := ReleaseQueue(q, quota, sock, sends, net);
            r.quota <= 0 || NoneWaits(r.q) || Refused(r.log, 0)
    decreases |q|
  {
    if q != [] && quota > 0 {
      var r := ReleaseQueue(q, quota, sock, sends, net);
      var waits := q[0].state == Invalid;
      if waits && !(sock && net(sends)) {
        assert !r.log[0].ok;
      } else {
        var quota1, sends1 := if waits then Decrement(quota) else quota, if waits then sends + 1 else sends;
        var rest := ReleaseQueue(q[1..], quota1, sock, sends1, net);
        ReleaseBusy(q[1..], quota1, sock, sends1, net);
        assert r.q == [if waits then Activated(q[0]) else q[0]] + rest.q;
        if NoneWaits(rest.q) {
          NoneWaitsHead(r.q[0], rest.q);
        } else if rest.quota > 0 {
          var k :| 0 <= k < |rest.log| && rest.log[k].Sent? && !rest.log[k].ok;
          assert r.log[if waits then k + 1 else k] == rest.log[k];
        }
      }
    }
  }

  lemma ReleasedBusy(s: Session, net: Network, from: nat)
    requires AllProper(s.outq) && from <= |s.log|
    ensures Busy(Release(s, net).s, from)
  {
    var r := ReleaseQueue(s.outq, s.outQuota, s.sock, s.sends, net);
    ReleaseBusy(s.outq, s.outQuota, s.sock, s.sends, net);
    if Refused(r.log, 0) {
      var k :| 0 <= k < |r.log| && r.log[k].Sent? && !r.log[k].ok;
      assert (s.log + r.log)[|s.log| + k] == r.log[k];
    }
  }

  /** Exactly the events that may make room or bring a message: a legal publish call above QoS 0, and
    the acknowledgements that end an exchange, also one that is not known. */
  predicate MakesRoom(s: Session, e: Event) {
    match e
    case AppPublish(req) => req.qos == 1 || req.qos == 2
    case Receive(RecvPuback(a), _) =>
      Reaches(s, a) && (FirstMid(s.outq, a.mid) == |s.outq| || Finds(s.outq, a.mid, 1))
    case Receive(RecvPubcomp(a), _) =>
      Reaches(s, a) && (FirstMid(s.outq, a.mid) == |s.outq| || Finds(s.outq, a.mid, 2))
    case Receive(RecvPubrec(a), _) => Rejects(s, a)
    case _ => false
  }

  /** After each of them the quota is used up, nothing waits, or a send was refused. */
  lemma NothingWaits(s: Session, e: Event, net: Network)
    requires AllProper(s.outq) && MakesRoom(s, e)
    ensures Busy(Step(s, e, net), |s.log|)
  {
    match e
    case AppPublish(req) =>
      var m := Message(s.nextId, NextMid(s.lastMid), req.qos, Invalid, false, req.body);
      var s1 := s.(lastMid := m.mid, nextId := s.nextId + 1, outq := s.outq + [m], outLen := s.outLen + 1);
      ReleasedBusy(s1, net, |s.log|);
    case Receive(p, app) =>
      AckBusy(s, p, app, net);
    case _ =>
  }

  lemma AckBusy(s: Session, p: Received, app: seq<Request>, net: Network)
    requires AllProper(s.outq) && MakesRoom(s, Receive(p, app))
    ensures Busy(Step(s, Receive(p, app), net), |s.log|)
  {
    var plan := PlanOf(s, Receive(p, app), net);
    var u := RunApp(plan.first, plan.app, net);
    StepIsPlan(s, Receive(p, app), net);
    FirstProper(s, Receive(p, app), net);
    RunAppProper(plan.first, plan.app, net);
    RunAppLog(plan.first, plan.app, net);
    ReleasedBusy(if plan.ending.give then Given(u) else u, net, |s.log|);
  }

  lemma {:induction false} RunAppLog(s: Session, app: seq<Request>, net: Network)
    ensures |s.log| <= |RunApp(s, app, net).log|
    decreases |app|
  {
    if app != [] {
      RunAppLog(PublishStep(s, app[0], net).s, app[1..], net);
    }
  }
}
