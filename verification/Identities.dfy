/** The outgoing queue holds distinct messages in the order of the publish calls, in every session
  a run can reach. */
module Identities {
  import opened Common
  import opened MessageFlow
  import opened SendWindow

  /** The queue holds distinct messages, in the order of the publish calls. */
  predicate Sorted(q: seq<Message>, nextId: nat) {
    && (forall i, j :: 0 <= i < j < |q| ==> q[i].id < q[j].id)
    && (forall i :: 0 <= i < |q| ==> q[i].id < nextId)
  }

  predicate SortedSession(s: Session) {
    Sorted(s.outq, s.nextId)
  }

  /** The messages of r are messages of q, in the same order, up to state and flag. */
  predicate SameIds(q: seq<Message>, r: seq<Message>) {
    |q| == |r| && forall i :: 0 <= i < |q| ==> r[i].id == q[i].id
  }

  lemma SortedSame(q: seq<Message>, r: seq<Message>, nextId: nat)
    requires Sorted(q, nextId) && SameIds(q, r)
    ensures Sorted(r, nextId)
  {
  }

  lemma SortedRemove(q: seq<Message>, i: nat, nextId: nat)
    requires i < |q| && Sorted(q, nextId)
    ensures Sorted(RemoveAt(q, i), nextId)
  {
    var r := RemoveAt(q, i);
    assert forall j :: 0 <= j < |r| ==> r[j] == if j < i then q[j] else q[j + 1];
  }

  lemma {:induction false} ReleaseIds(q: seq<Message>, quota: int, sock: bool, sends: nat, net: Network)
    ensures SameIds(q, ReleaseQueue(q, quota, sock, sends, net).q)
    decreases |q|
  {
    if q != [] && quota > 0 {
      if q[0].qos > 0 && q[0].state == Invalid {
        ReleaseIds(q[1..], Decrement(quota), sock, sends + 1, net);
      } else {
        ReleaseIds(q[1..], quota, sock, sends, net);
      }
    }
  }

  lemma ReleaseSorted(s: Session, net: Network)
    requires SortedSession(s)
    ensures SortedSession(Release(s, net).s)
  {
    ReleaseIds(s.outq, s.outQuota, s.sock, s.sends, net);
    SortedSame(s.outq, Release(s, net).s.outq, s.nextId);
  }

  lemma ResetSorted(s: Session, quotaOnly: bool)
    requires SortedSession(s)
    ensures SortedSession(Reset(s, quotaOnly))
  {
    ResetPositions(s.outq, s.outMax, quotaOnly);
    SortedSame(s.outq, Reset(s, quotaOnly).outq, s.nextId);
  }

  lemma RetrySorted(s: Session, net: Network)
    requires SortedSession(s)
    ensures SortedSession(Retry(s, net))
  {
    RetryKeepsStates(s.outq, s.sock, s.sends, net);
    SortedSame(s.outq, Retry(s, net).outq, s.nextId);
  }

  lemma PublishSorted(s: Session, req: Request, net: Network)
    requires SortedSession(s)
    ensures SortedSession(PublishStep(s, req, net).s)
  {
    if req.qos == 1 || req.qos == 2 {
      var mid := NextMid(s.lastMid);
      var m := Message(s.nextId, mid, req.qos, Invalid, false, req.body);
      ReleaseSorted(s.(lastMid := mid, nextId := s.nextId + 1, outq := s.outq + [m], outLen := s.outLen + 1), net);
    }
  }

  lemma {:induction false} RunAppSorted(s: Session, app: seq<Request>, net: Network)
    requires SortedSession(s)
    ensures SortedSession(RunApp(s, app, net))
    decreases |app|
  {
    if app != [] {
      PublishSorted(s, app[0], net);
      RunAppSorted(PublishStep(s, app[0], net).s, app[1..], net);
    }
  }

  lemma RemoveOutSorted(s: Session, mid: nat, qos: int)
    requires SortedSession(s)
    ensures SortedSession(RemoveOut(s, mid, qos).s)
  {
    var i := FirstMid(s.outq, mid);
    if i < |s.outq| {
      SortedRemove(s.outq, i, s.nextId);
    }
  }

  lemma PubackcompSorted(s: Session, a: Ack, qos: int, app: seq<Request>, net: Network)
    requires SortedSession(s)
    ensures SortedSession(PubackcompStep(s, a, qos, app, net).s)
  {
    if s.cs == Active && a.Ack? && a.mid != 0 {
      var s1 := s.(outQuota := Increment(s.outQuota, s.outMax));
      var d := RemoveOut(s1, a.mid, qos);
      RemoveOutSorted(s1, a.mid, qos);
      if d.rc == Success {
        var d1 := d.s.(log := d.s.log + [OnPublish(a.mid)]);
        RunAppSorted(d1, app, net);
        ReleaseSorted(RunApp(d1, app, net), net);
      } else if d.rc == NotFound {
        ReleaseSorted(d.s, net);
      }
    }
  }

  lemma PubrecSorted(s: Session, a: Ack, app: seq<Request>, net: Network)
    requires SortedSession(s)
    ensures SortedSession(PubrecStep(s, a, app, net).s)
  {
    if s.cs == Active && a.Ack? && a.mid != 0 && !(a.reason < 0x80 || s.protocol != Mqtt5) {
      var d := RemoveOut(s, a.mid, 2);
      RemoveOutSorted(s, a.mid, 2);
      var t := d.s;
      if d.rc == Success {
        t := RunApp(d.s.(log := d.s.log + [OnPublish(a.mid)]), app, net);
        RunAppSorted(d.s.(log := d.s.log + [OnPublish(a.mid)]), app, net);
      }
      ReleaseSorted(t.(outQuota := Increment(t.outQuota, t.outMax)), net);
    }
  }

  lemma IncomingPublishSorted(s: Session, p: Received, app: seq<Request>, net: Network)
    requires SortedSession(s) && p.RecvPublish?
    ensures SortedSession(HandleStep(s, p, app, net).s)
  {
    if s.cs == Active && !p.bad && 0 <= p.qos <= 1 {
      var m := Message(s.nextId, if p.qos > 0 then p.mid else 0, p.qos, Invalid, false, p.body);
      var s1 := s.(nextId := s.nextId + 1);
      if p.qos == 0 {
        RunAppSorted(s1.(log := s1.log + [OnMessage(m)]), app, net);
      } else {
        var r := Send(s1.(inQuota := Increment(Decrement(s1.inQuota), s1.inMax)), Puback(p.mid), net);
        RunAppSorted(r.s.(log := r.s.log + [OnMessage(m)]), app, net);
      }
    }
  }

  lemma PubrelSorted(s: Session, a: Ack, app: seq<Request>, net: Network)
    requires SortedSession(s)
    ensures SortedSession(PubrelStep(s, a, app, net).s)
  {
    if s.cs == Active && a.Ack? {
      var r := Send(s.(inQuota := Increment(s.inQuota, s.inMax)), Pubcomp(a.mid), net);
      var d := RemoveIn(r.s, a.mid, 2);
      if d.rc == Success {
        RunAppSorted(d.s.(log := d.s.log + [OnMessage(r.s.inq[FirstMid(r.s.inq, a.mid)])]), app, net);
      }
    }
  }

  lemma ConnackSorted(s: Session, code: nat, rmax: Option<nat>, app: seq<Request>, net: Network)
    requires SortedSession(s)
    ensures SortedSession(ConnackStep(s, false, code, rmax, app, net).s)
  {
    var s1 := if rmax.Some? then s.(outMax := rmax.value) else s;
    ResetSorted(s1, true);
    RunAppSorted(Reset(s1, true), app, net);
    var s2 := RunApp(Reset(s1, true), app, net);
    RetrySorted(if s2.cs == Disconnecting then s2 else s2.(cs := Active), net);
  }

  /** Any event, with any packet and any pattern of failing sends. */
  lemma StepSorted(s: Session, e: Event, net: Network)
    requires SortedSession(s)
    ensures SortedSession(Step(s, e, net))
  {
    match e
    case AppPublish(req) => PublishSorted(s, req, net);
    case Receive(p, app) =>
      match p {
        case RecvPuback(a) => PubackcompSorted(s, a, 1, app, net);
        case RecvPubcomp(a) => PubackcompSorted(s, a, 2, app, net);
        case RecvPubrec(a) => PubrecSorted(s, a, app, net);
        case RecvConnack(bad, code, rmax) => if !bad { ConnackSorted(s, code, rmax, app, net); }
        case RecvPubrel(a) => PubrelSorted(s, a, app, net);
        case RecvPublish(_, _, _, _) => IncomingPublishSorted(s, p, app, net);
      }
    case SocketLost =>
    case Reconnect(refused) => ResetSorted(s, false);
    case AppDisconnect =>
  }

  /** Every run keeps the queue in the order of the publish calls, with no message in it twice. */
  lemma {:induction false} RunSorted(s: Session, events: seq<Event>, net: Network)
    requires SortedSession(s)
    ensures SortedSession(Run(s, events, net))
    decreases |events|
  {
    if events != [] {
      StepSorted(s, events[0], net);
      RunSorted(Step(s, events[0], net), events[1..], net);
    }
  }
}
