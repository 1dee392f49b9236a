/** MQTT 5 flow control of incoming messages (section 4.9 of MQTT 5.0): with a broker that releases
  what it sent, the receive quota is at all times what the queued messages leave of the Receive
  Maximum, so a message above QoS 0 is refused exactly when that many are queued. */
module ReceiveWindow {
  import opened Calls
  import opened Common
  import opened Exchange
  import opened MessageFlow
  import R = Receive

  predicate Even(s: Session) {
    R.Qos2Only(s.inq) && s.inQuota == s.inMax - |s.inq| && |s.inq| <= s.inMax
  }

  /** A PUBREL names a queued message, or there is none. */
  predicate Releases(s: Session, e: Event) {
    e.Receive? && e.packet.RecvPubrel? && Reaches(s, e.packet.ack) ==>
      s.inq == [] || Finds(s.inq, e.packet.ack.mid, 2)
  }

  lemma SameEven(s: Session, t: Session)
    requires Even(s) && R.Untouched(s, t)
    ensures Even(t)
  {
  }

  lemma {:induction false} RunAppProtocol(s: Session, app: seq<Request>, net: Network)
    ensures RunApp(s, app, net).protocol == s.protocol
    decreases |app|
  {
    if app != [] {
      RunAppProtocol(PublishStep(s, app[0], net).s, app[1..], net);
    }
  }

  lemma CarryEven(p: Plan, net: Network)
    requires Even(p.first)
    ensures Even(Carry(p, net)) && Carry(p, net).protocol == p.first.protocol
  {
    var u := RunApp(p.first, p.app, net);
    R.RunAppUntouched(p.first, p.app, net);
    RunAppProtocol(p.first, p.app, net);
    SameEven(p.first, u);
    match p.ending
    case Plain =>
    case ThenRelease(give) =>
      var g := if give then Given(u) else u;
      R.ReleaseUntouched(g, net);
      SameEven(g, Release(g, net).s);
    case ThenRetry =>
      R.RetryUntouched(NowActive(u), net);
      SameEven(NowActive(u), Retry(NowActive(u), net));
  }

  lemma ResetEven(s: Session, quotaOnly: bool)
    requires Even(s)
    ensures var f := Reset(s, quotaOnly); Even(f) && f.protocol == s.protocol
  {
    R.ResetInKeepsQos2(s.inq, s.inMax);
  }

  lemma PubrelEven(s: Session, a: Ack, app: seq<Request>, net: Network)
    requires Even(s) && s.sock && (Reaches(s, a) ==> s.inq == [] || Finds(s.inq, a.mid, 2))
    ensures var f := ReceivePlan(s, RecvPubrel(a), app, net).first; Even(f) && f.protocol == s.protocol
  {
    if Reaches(s, a) && s.inq != [] {
      R.RemoveOne(s.inq, FirstMid(s.inq, a.mid));
    }
  }

  lemma PublishEven(s: Session, p: Received, app: seq<Request>, net: Network)
    requires Even(s) && s.sock && s.protocol == Mqtt5 && p.RecvPublish?
    ensures var f := ReceivePlan(s, p, app, net).first; Even(f) && f.protocol == s.protocol
  {
  }

  lemma OutgoingEven(s: Session, p: Received, app: seq<Request>, net: Network)
    requires Even(s) && s.sock && (p.RecvPuback? || p.RecvPubcomp? || p.RecvPubrec?)
    ensures var f := ReceivePlan(s, p, app, net).first; Even(f) && f.protocol == s.protocol
  {
  }

  lemma FirstEven(s: Session, e: Event, net: Network)
    requires Even(s) && s.protocol == Mqtt5 && Releases(s, e)
    ensures Even(PlanOf(s, e, net).first) && PlanOf(s, e, net).first.protocol == Mqtt5
  {
    match e
    case AppPublish(_) =>
    case SocketLost =>
    case AppDisconnect =>
    case Reconnect(_) => ResetEven(s, false);
    case Receive(p, app) =>
      if s.sock {
        match p {
          case RecvPubrel(a) => PubrelEven(s, a, app, net);
          case RecvPublish(_, _, _, _) => PublishEven(s, p, app, net);
          case RecvConnack(_, _, rmax) => ResetEven(if rmax.Some? then s.(outMax := rmax.value) else s, true);
          case _ => OutgoingEven(s, p, app, net);
        }
      }
  }

  lemma StepEven(s: Session, e: Event, net: Network)
    requires Even(s) && s.protocol == Mqtt5 && Releases(s, e)
    ensures Even(Step(s, e, net)) && Step(s, e, net).protocol == Mqtt5
  {
    StepIsPlan(s, e, net);
    FirstEven(s, e, net);
    CarryEven(PlanOf(s, e, net), net);
  }

  /** Exactly those events keep the quota right: a PUBREL for an unknown message gives quota back that
    was never taken. */
  lemma StepEvenIff(s: Session, e: Event, net: Network)
    requires Even(s) && s.protocol == Mqtt5
    ensures Even(Step(s, e, net)) <==> Releases(s, e)
  {
    if Releases(s, e) {
      StepEven(s, e, net);
    } else {
      var p, t := PlanOf(s, e, net), Step(s, e, net);
      StepIsPlan(s, e, net);
      RunNothing(p.first, net);
      assert t.inq == s.inq && t.inQuota == s.inQuota + 1 && t.inMax == s.inMax;
    }
  }

  predicate ReleasesAlong(s: Session, events: seq<Event>, net: Network)
    decreases |events|
  {
    events == [] || (Releases(s, events[0]) && ReleasesAlong(Step(s, events[0], net), events[1..], net))
  }

  lemma {:induction false} RunEven(s: Session, events: seq<Event>, net: Network)
    requires Even(s) && s.protocol == Mqtt5 && ReleasesAlong(s, events, net)
    ensures Even(Run(s, events, net)) && Run(s, events, net).protocol == Mqtt5
    decreases |events|
  {
    if events != [] {
      StepEven(s, events[0], net);
      RunEven(Step(s, events[0], net), events[1..], net);
    }
  }

  /** A well-formed PUBLISH of QoS 1 or 2 is refused exactly if Receive Maximum messages are queued. */
  lemma RefusedIffFull(outMax: nat, inMax: nat, events: seq<Event>, net: Network, p: Received)
    requires ReleasesAlong(Initial(Mqtt5, outMax, inMax), events, net)
    requires var s := Run(Initial(Mqtt5, outMax, inMax), events, net); s.sock && s.cs == Active
    requires p.RecvPublish? && !p.bad && 1 <= p.qos <= 2 && p.mid != 0
    ensures var s := Run(Initial(Mqtt5, outMax, inMax), events, net);
            Accepts(s, p) <==> |s.inq| < s.inMax
  {
    RunEven(Initial(Mqtt5, outMax, inMax), events, net);
  }
}
