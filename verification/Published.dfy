/** What each PUBLISH on the network carries: the identifiers, quality of service and payload of the
  publish call that took its identity, and the duplicate flag exactly once the message was resent. */
module Published {
  import opened Calls
  import opened Common
  import opened Exchange
  import opened Identities
  import opened MessageFlow
  import opened SendWindow

  predicate IsPublish(o: Output) {
    o.Sent? && o.packet.Publish?
  }

  /** The PUBLISH has everything from one of the calls. */
  predicate FromCall(o: Output, calls: seq<Call>)
    requires IsPublish(o)
  {
    Call(o.packet.id, o.packet.mid, o.packet.qos, o.packet.body) in calls
  }

  /** Every PUBLISH of the log has everything from one of the calls. */
  predicate Backed(log: seq<Output>, calls: seq<Call>) {
    forall k :: 0 <= k < |log| && IsPublish(log[k]) ==> FromCall(log[k], calls)
  }

  predicate QueueBacked(q: seq<Message>, calls: seq<Call>) {
    forall i :: 0 <= i < |q| ==> Call(q[i].id, q[i].mid, q[i].qos, q[i].body) in calls
  }

  /** The flag of a queued message says whether a retry pass has sent for it. */
  predicate Flagged(s: Session, resent: set<nat>) {
    && (forall i :: 0 <= i < |s.outq| ==> (s.outq[i].dup <==> s.outq[i].id in resent))
    && (forall id :: id in resent ==> id < s.nextId)
  }

  predicate Tracked(s: Session, calls: seq<Call>, resent: set<nat>) {
    SortedSession(s) && QueueBacked(s.outq, calls) && Flagged(s, resent)
  }

  /** An entry made outside a retry pass. */
  predicate Fresh(o: Output, calls: seq<Call>, resent: set<nat>) {
    IsPublish(o) ==> FromCall(o, calls) && (o.packet.dup <==> o.packet.id in resent)
  }

  /** From s to t the log has grown by such entries. */
  predicate Grows(s: Session, t: Session, calls: seq<Call>, resent: set<nat>) {
    s.log <= t.log && forall k :: |s.log| <= k < |t.log| ==> Fresh(t.log[k], calls, resent)
  }

  lemma GrowsTrans(s: Session, t: Session, u: Session, calls: seq<Call>, resent: set<nat>)
    requires Grows(s, t, calls, resent) && Grows(t, u, calls, resent)
    ensures Grows(s, u, calls, resent)
  {
    forall k | |s.log| <= k < |u.log| ensures Fresh(u.log[k], calls, resent) {
      if k < |t.log| {
        assert u.log[k] == t.log[k];
      }
    }
  }

  lemma GrowsBy(s: Session, t: Session, extra: seq<Output>, calls: seq<Call>, resent: set<nat>)
    requires t.log == s.log + extra
    requires forall k :: 0 <= k < |extra| ==> Fresh(extra[k], calls, resent)
    ensures Grows(s, t, calls, resent)
  {
    forall k | |s.log| <= k < |t.log| ensures Fresh(t.log[k], calls, resent) {
      assert t.log[k] == extra[k - |s.log|];
    }
  }

  /** More calls back what fewer do. */
  lemma MoreCalls(s: Session, t: Session, calls: seq<Call>, more: seq<Call>, resent: set<nat>)
    requires Grows(s, t, calls, resent)
    ensures Grows(s, t, calls + more, resent)
  {
    forall k | |s.log| <= k < |t.log| ensures Fresh(t.log[k], calls + more, resent) {
      assert Fresh(t.log[k], calls, resent);
    }
  }

  // ---------- release and publish ----------

  /** The PUBLISH repeats a queued message. */
  predicate Repeats(o: Output, m: Message) {
    && o.Sent? && o.packet.Publish?
    && o.packet.id == m.id && o.packet.mid == m.mid && o.packet.qos == m.qos && o.packet.body == m.body
    && o.packet.dup == m.dup
  }

  predicate RepeatsSome(o: Output, q: seq<Message>) {
    exists i :: 0 <= i < |q| && Repeats(o, q[i])
  }

  lemma RepeatsTail(o: Output, q: seq<Message>)
    requires q != [] && RepeatsSome(o, q[1..])
    ensures RepeatsSome(o, q)
  {
    var i :| 0 <= i < |q[1..]| && Repeats(o, q[1..][i]);
    assert q[1..][i] == q[i + 1];
  }

  lemma {:induction false} ReleaseRepeats(q: seq<Message>, quota: int, sock: bool, sends: nat, net: Network, k: nat)
    requires k < |ReleaseQueue(q, quota, sock, sends, net).log|
    ensures RepeatsSome(ReleaseQueue(q, quota, sock, sends, net).log[k], q)
    decreases |q|
  {
    var o := ReleaseQueue(q, quota, sock, sends, net).log[k];
    if q[0].qos > 0 && q[0].state == Invalid {
      if k == 0 {
        assert Repeats(o, q[0]);
      } else {
        ReleaseRepeats(q[1..], Decrement(quota), sock, sends + 1, net, k - 1);
        RepeatsTail(o, q);
      }
    } else {
      ReleaseRepeats(q[1..], quota, sock, sends, net, k);
      RepeatsTail(o, q);
    }
  }

  lemma {:induction false} ReleaseFlags(q: seq<Message>, quota: int, sock: bool, sends: nat, net: Network, i: nat)
    requires i < |q|
    ensures var r := ReleaseQueue(q, quota, sock, sends, net).q; r[i] == q[i].(state := r[i].state)
    decreases |q|
  {
    if quota > 0 && i > 0 {
      if q[0].qos > 0 && q[0].state == Invalid {
        ReleaseFlags(q[1..], Decrement(quota), sock, sends + 1, net, i - 1);
      } else {
        ReleaseFlags(q[1..], quota, sock, sends, net, i - 1);
      }
    }
  }

  lemma ReleaseTracked(s: Session, calls: seq<Call>, resent: set<nat>, net: Network)
    requires Tracked(s, calls, resent)
    ensures var t := Release(s, net).s; Tracked(t, calls, resent) && Grows(s, t, calls, resent)
  {
    var t := Release(s, net).s;
    var r := ReleaseQueue(s.outq, s.outQuota, s.sock, s.sends, net);
    ReleaseSorted(s, net);
    forall i | 0 <= i < |s.outq| ensures r.q[i] == s.outq[i].(state := r.q[i].state) {
      ReleaseFlags(s.outq, s.outQuota, s.sock, s.sends, net, i);
    }
    forall k | 0 <= k < |r.log| ensures Fresh(r.log[k], calls, resent) {
      ReleaseRepeats(s.outq, s.outQuota, s.sock, s.sends, net, k);
      var i :| 0 <= i < |s.outq| && Repeats(r.log[k], s.outq[i]);
    }
    GrowsBy(s, t, r.log, calls, resent);
  }

  lemma PublishTracked(s: Session, req: Request, calls: seq<Call>, resent: set<nat>, net: Network)
    requires Tracked(s, calls, resent) && MidFits(s)
    ensures var t := PublishStep(s, req, net).s;
            var all := calls + Issued(s.nextId, s.lastMid, [req]);
            Tracked(t, all, resent) && Grows(s, t, all, resent)
  {
    var c := Call(s.nextId, s.lastMid % 65535 + 1, req.qos, req.body);
    var all := calls + Issued(s.nextId, s.lastMid, [req]);
    NextMidRound(s.lastMid);
    assert [req][1..] == [];
    assert Issued(s.nextId, s.lastMid, [req]) == if 0 <= req.qos <= 2 then [c] else [];
    if 0 <= req.qos <= 2 {
      assert all[|calls|] == c;
      var m := Message(s.nextId, c.mid, req.qos, Invalid, false, req.body);
      var s1 := s.(lastMid := c.mid, nextId := s.nextId + 1);
      if req.qos == 0 {
        var o := Sent(Publish(c.id, c.mid, 0, false, c.body), s.sock && net(s.sends));
        GrowsBy(s, PublishStep(s, req, net).s, [o], all, resent);
      } else {
        ReleaseTracked(s1.(outq := s.outq + [m], outLen := s.outLen + 1), all, resent, net);
      }
    }
  }

  lemma {:induction false} RunAppTracked(s: Session, app: seq<Request>, calls: seq<Call>, resent: set<nat>,
                                         net: Network)
    requires Tracked(s, calls, resent) && MidFits(s)
    ensures var t := RunApp(s, app, net);
            var all := calls + Issued(s.nextId, s.lastMid, app);
            Tracked(t, all, resent) && Grows(s, t, all, resent)
    decreases |app|
  {
    if app == [] {
      assert calls + [] == calls;
    } else {
      var t := PublishStep(s, app[0], net).s;
      var head := Issued(s.nextId, s.lastMid, [app[0]]);
      var rest := Issued(t.nextId, t.lastMid, app[1..]);
      PublishTracked(s, app[0], calls, resent, net);
      PublishCalled(s, app[0], net);
      RunAppTracked(t, app[1..], calls + head, resent, net);
      IssuedCons(s.nextId, s.lastMid, app);
      assert calls + Issued(s.nextId, s.lastMid, app) == calls + head + rest;
      GrowsOn(s, t, RunApp(t, app[1..], net), calls + head, rest, resent);
    }
  }

  lemma GrowsOn(s: Session, t: Session, u: Session, calls: seq<Call>, more: seq<Call>, resent: set<nat>)
    requires Grows(s, t, calls, resent) && Grows(t, u, calls + more, resent)
    ensures Grows(s, u, calls + more, resent)
  {
    MoreCalls(s, t, calls, more, resent);
    GrowsTrans(s, t, u, calls + more, resent);
  }

  // ---------- the retry pass ----------

  /** The states in which a retry pass sends for a message. */
  predicate Resends(m: Message) {
    m.state == PublishQos1 || m.state == PublishQos2 || m.state == WaitForPubrel
    || m.state == ResendPubrel || m.state == WaitForPubcomp
  }

  function ResentIds(q: seq<Message>): set<nat> {
    set i | 0 <= i < |q| && Resends(q[i]) :: q[i].id
  }

  /** An entry of a retry pass: a PUBLISH carries the flag. */
  predicate Again(o: Output, calls: seq<Call>) {
    IsPublish(o) ==> FromCall(o, calls) && o.packet.dup
  }

  lemma {:induction false} RetryAgain(q: seq<Message>, calls: seq<Call>, sock: bool, sends: nat, net: Network, k: nat)
    requires QueueBacked(q, calls) && k < |RetryQueue(q, sock, sends, net).log|
    ensures Again(RetryQueue(q, sock, sends, net).log[k], calls)
    decreases |q|
  {
    var t := q[1..];
    assert forall i :: 0 <= i < |t| ==> t[i] == q[i + 1];
    if RetryPacket(q[0]).None? {
      RetryAgain(t, calls, sock, sends, net, k);
    } else if k > 0 {
      RetryAgain(t, calls, sock, sends + 1, net, k - 1);
    }
  }

  lemma {:induction false} RetryFlags(q: seq<Message>, sock: bool, sends: nat, net: Network, i: nat)
    requires i < |q|
    ensures var r := RetryQueue(q, sock, sends, net).q;
            r[i] == q[i].(dup := q[i].dup || Resends(q[i]))
    decreases |q|
  {
    if i > 0 {
      RetryFlags(q[1..], sock, if RetryPacket(q[0]).None? then sends else sends + 1, net, i - 1);
    }
  }

  lemma RetryTracked(s: Session, calls: seq<Call>, resent: set<nat>, net: Network)
    requires Tracked(s, calls, resent)
    ensures var t := Retry(s, net);
            && Tracked(t, calls, resent + ResentIds(s.outq))
            && s.log <= t.log && forall k :: |s.log| <= k < |t.log| ==> Again(t.log[k], calls)
  {
    var t := Retry(s, net);
    var r := RetryQueue(s.outq, s.sock, s.sends, net);
    RetrySorted(s, net);
    forall i | 0 <= i < |s.outq|
      ensures t.outq[i] == s.outq[i].(dup := s.outq[i].dup || Resends(s.outq[i]))
      ensures s.outq[i].id in ResentIds(s.outq) <==> Resends(s.outq[i])
    {
      RetryFlags(s.outq, s.sock, s.sends, net, i);
    }
    forall k | |s.log| <= k < |t.log| ensures Again(t.log[k], calls) {
      RetryAgain(s.outq, calls, s.sock, s.sends, net, k - |s.log|);
      assert t.log[k] == r.log[k - |s.log|];
    }
  }

  // ---------- up to the callback ----------

  lemma Noted(s: Session, t: Session, extra: seq<Output>, calls: seq<Call>, resent: set<nat>)
    requires Tracked(s, calls, resent) && t.outq == s.outq && t.nextId >= s.nextId
    requires t.log == s.log + extra && forall k :: 0 <= k < |extra| ==> !IsPublish(extra[k])
    ensures Tracked(t, calls, resent) && Grows(s, t, calls, resent)
  {
    GrowsBy(s, t, extra, calls, resent);
  }

  lemma RemovedTracked(s: Session, t: Session, i: nat, mid: nat, calls: seq<Call>, resent: set<nat>)
    requires Tracked(s, calls, resent) && i < |s.outq|
    requires t.outq == RemoveAt(s.outq, i) && t.nextId == s.nextId && t.log == s.log + [OnPublish(mid)]
    ensures Tracked(t, calls, resent) && Grows(s, t, calls, resent)
  {
    var r := RemoveAt(s.outq, i);
    SortedRemove(s.outq, i, s.nextId);
    assert forall j :: 0 <= j < |r| ==> r[j] == if j < i then s.outq[j] else s.outq[j + 1];
    GrowsBy(s, t, [OnPublish(mid)], calls, resent);
  }

  lemma ResetTracked(s: Session, quotaOnly: bool, calls: seq<Call>, resent: set<nat>)
    requires Tracked(s, calls, resent)
    ensures Tracked(Reset(s, quotaOnly), calls, resent)
  {
    var r := Reset(s, quotaOnly);
    ResetSorted(s, quotaOnly);
    ResetPositions(s.outq, s.outMax, quotaOnly);
    assert forall i :: 0 <= i < |s.outq| ==> r.outq[i] == s.outq[i].(state := r.outq[i].state);
  }

  lemma AckTracked(s: Session, a: Ack, qos: int, app: seq<Request>, calls: seq<Call>, resent: set<nat>)
    requires Tracked(s, calls, resent) && s.sock
    ensures var f := AckPlan(s, a, qos, app).first; Tracked(f, calls, resent) && Grows(s, f, calls, resent)
  {
    var f := AckPlan(s, a, qos, app).first;
    if Reaches(s, a) && Finds(s.outq, a.mid, qos) {
      RemovedTracked(s, f, FirstMid(s.outq, a.mid), a.mid, calls, resent);
    } else {
      assert s.log + [] == s.log;
      Noted(s, f, [], calls, resent);
    }
  }

  lemma CommitTracked(s: Session, mid: nat, net: Network, calls: seq<Call>, resent: set<nat>)
    requires Tracked(s, calls, resent) && s.sock
    ensures var f := CommitPlan(s, mid, net).first; Tracked(f, calls, resent) && Grows(s, f, calls, resent)
  {
    var i := FirstMid(s.outq, mid);
    var f := CommitPlan(s, mid, net).first;
    if i < |s.outq| && s.outq[i].qos != 2 {
      assert s.log + [] == s.log;
      Noted(s, f, [], calls, resent);
    } else {
      var q := if i < |s.outq| then s.outq[i := s.outq[i].(state := WaitForPubcomp)] else s.outq;
      var s1 := s.(outq := q);
      SortedSame(s.outq, q, s.nextId);
      Noted(s1, f, [Sent(Pubrel(mid), net(s.sends))], calls, resent);
      assert Grows(s, f, calls, resent);
    }
  }

  lemma PubrecTracked(s: Session, a: Ack, app: seq<Request>, net: Network, calls: seq<Call>, resent: set<nat>)
    requires Tracked(s, calls, resent) && s.sock
    ensures var f := ReceivePlan(s, RecvPubrec(a), app, net).first;
            Tracked(f, calls, resent) && Grows(s, f, calls, resent)
  {
    var f := ReceivePlan(s, RecvPubrec(a), app, net).first;
    if Reaches(s, a) && (a.reason < 128 || s.protocol != Mqtt5) {
      CommitTracked(s, a.mid, net, calls, resent);
    } else if Rejects(s, a) && Finds(s.outq, a.mid, 2) {
      RemovedTracked(s, f, FirstMid(s.outq, a.mid), a.mid, calls, resent);
    } else {
      assert s.log + [] == s.log;
      Noted(s, f, [], calls, resent);
    }
  }

  lemma PubrelTracked(s: Session, a: Ack, app: seq<Request>, net: Network, calls: seq<Call>, resent: set<nat>)
    requires Tracked(s, calls, resent) && s.sock
    ensures var f := ReceivePlan(s, RecvPubrel(a), app, net).first;
            Tracked(f, calls, resent) && Grows(s, f, calls, resent)
  {
    var f := ReceivePlan(s, RecvPubrel(a), app, net).first;
    if Reaches(s, a) {
      var o := Sent(Pubcomp(a.mid), net(s.sends));
      if Finds(s.inq, a.mid, 2) {
        var m := s.inq[FirstMid(s.inq, a.mid)];
        Noted(s, f, [o, if net(s.sends) then OnMessage(m) else Dropped(m)], calls, resent);
      } else {
        Noted(s, f, [o], calls, resent);
      }
    } else {
      assert s.log + [] == s.log;
      Noted(s, f, [], calls, resent);
    }
  }

  lemma IncomingTracked(s: Session, p: Received, app: seq<Request>, net: Network, calls: seq<Call>, resent: set<nat>)
    requires Tracked(s, calls, resent) && s.sock && p.RecvPublish?
    ensures var f := ReceivePlan(s, p, app, net).first; Tracked(f, calls, resent) && Grows(s, f, calls, resent)
  {
    var f := ReceivePlan(s, p, app, net).first;
    if !Accepts(s, p) {
      assert s.log + [] == s.log;
      Noted(s, f, [], calls, resent);
    } else {
      var m := Message(s.nextId, p.mid, p.qos, Invalid, false, p.body);
      Noted(s, f,
            if p.qos == 0 then [OnMessage(m.(mid := 0))]
            else if p.qos == 1 then [Sent(Puback(p.mid), net(s.sends)), OnMessage(m)]
            else [Sent(Pubrec(p.mid), net(s.sends))], calls, resent);
    }
  }

  lemma ReceiveTracked(s: Session, p: Received, app: seq<Request>, net: Network, calls: seq<Call>, resent: set<nat>)
    requires Tracked(s, calls, resent) && s.sock
    ensures var f := ReceivePlan(s, p, app, net).first; Tracked(f, calls, resent) && Grows(s, f, calls, resent)
  {
    match p
    case RecvPuback(a) => AckTracked(s, a, 1, app, calls, resent);
    case RecvPubcomp(a) => AckTracked(s, a, 2, app, calls, resent);
    case RecvPubrec(a) => PubrecTracked(s, a, app, net, calls, resent);
    case RecvPubrel(a) => PubrelTracked(s, a, app, net, calls, resent);
    case RecvPublish(_, _, _, _) => IncomingTracked(s, p, app, net, calls, resent);
    case RecvConnack(_, _, rmax) =>
      ResetTracked(if rmax.Some? then s.(outMax := rmax.value) else s, true, calls, resent);
  }

  lemma FirstTracked(s: Session, e: Event, net: Network, calls: seq<Call>, resent: set<nat>)
    requires Tracked(s, calls, resent)
    ensures var f := PlanOf(s, e, net).first; Tracked(f, calls, resent) && Grows(s, f, calls, resent)
  {
    var f := PlanOf(s, e, net).first;
    assert s.log + [] == s.log;
    match e
    case AppPublish(req) =>
    case Receive(p, app) => if s.sock { ReceiveTracked(s, p, app, net, calls, resent); }
    case SocketLost =>
    case Reconnect(refused) =>
      ResetTracked(s, false, calls, resent);
      if !refused {
        Noted(Reset(s, false), f, [Sent(Connect, net(s.sends))], calls, resent);
        assert Grows(s, f, calls, resent);
      }
    case AppDisconnect => if s.sock { Noted(s, f, [Sent(Disconnect, net(s.sends))], calls, resent); }
  }

  // ---------- every event ----------

  /** The CONNACK ends with a retry pass. */
  predicate Accepted(s: Session, e: Event) {
    s.sock && e.Receive? && e.packet.RecvConnack? && !e.packet.bad && e.packet.code == 0
  }

  /** The session when the retry pass of an accepted CONNACK begins. */
  function BeforeRetry(s: Session, e: Event, net: Network): Session
    requires Accepted(s, e)
  {
    RunApp(Connecting(s, e.packet.receiveMax), e.app, net)
  }

  /** Where in the log of the event the retry pass begins. */
  function RetryStart(s: Session, e: Event, net: Network): nat {
    if Accepted(s, e) then |BeforeRetry(s, e, net).log| else |Step(s, e, net).log|
  }

  function ResentBy(s: Session, e: Event, net: Network): set<nat> {
    if Accepted(s, e) then ResentIds(BeforeRetry(s, e, net).outq) else {}
  }

  lemma CalledBackTracked(p: Plan, net: Network, calls: seq<Call>, resent: set<nat>)
    requires Tracked(p.first, calls, resent) && MidFits(p.first) && !p.ending.ThenRetry?
    ensures var t := Carry(p, net);
            var all := calls + Issued(p.first.nextId, p.first.lastMid, p.app);
            Tracked(t, all, resent) && Grows(p.first, t, all, resent)
  {
    var u := RunApp(p.first, p.app, net);
    var all := calls + Issued(p.first.nextId, p.first.lastMid, p.app);
    RunAppTracked(p.first, p.app, calls, resent, net);
    if p.ending.ThenRelease? {
      var g := if p.ending.give then Given(u) else u;
      ReleaseTracked(g, all, resent, net);
      assert Grows(u, Release(g, net).s, all, resent);
      GrowsTrans(p.first, u, Release(g, net).s, all, resent);
    }
  }

  lemma MoreTracked(s: Session, e: Event, net: Network, calls: seq<Call>)
    ensures var p := PlanOf(s, e, net);
            calls + Issued(p.first.nextId, p.first.lastMid, p.app) == calls + EventCalls(s, e, net)
  {
    SameCallsMade(s, e, net);
  }

  lemma RetriesIfAccepted(s: Session, e: Event, net: Network)
    ensures PlanOf(s, e, net).ending.ThenRetry? <==> Accepted(s, e)
  {
  }

  lemma AcceptedPublished(s: Session, e: Event, net: Network, calls: seq<Call>, resent: set<nat>)
    requires Tracked(s, calls, resent) && MidFits(s) && Accepted(s, e)
    ensures var u, t := BeforeRetry(s, e, net), Step(s, e, net);
            var all := calls + EventCalls(s, e, net);
            && Grows(s, u, all, resent)
            && Tracked(t, all, resent + ResentIds(u.outq))
            && u.log <= t.log && forall k :: |u.log| <= k < |t.log| ==> Again(t.log[k], all)
  {
    var p, all := PlanOf(s, e, net), calls + EventCalls(s, e, net);
    var f, u := p.first, BeforeRetry(s, e, net);
    StepIsPlan(s, e, net);
    FirstHolds(s, e, net);
    FirstTracked(s, e, net, calls, resent);
    MoreTracked(s, e, net, calls);
    MoreCalls(s, f, calls, EventCalls(s, e, net), resent);
    RunAppTracked(f, p.app, calls, resent, net);
    GrowsTrans(s, f, u, all, resent);
    RetryTracked(NowActive(u), all, resent, net);
    assert Step(s, e, net) == Retry(NowActive(u), net);
  }

  lemma OtherPublished(s: Session, e: Event, net: Network, calls: seq<Call>, resent: set<nat>)
    requires Tracked(s, calls, resent) && MidFits(s) && !Accepted(s, e)
    ensures var t, all := Step(s, e, net), calls + EventCalls(s, e, net);
            Tracked(t, all, resent) && Grows(s, t, all, resent)
  {
    var p := PlanOf(s, e, net);
    StepIsPlan(s, e, net);
    RetriesIfAccepted(s, e, net);
    FirstHolds(s, e, net);
    FirstTracked(s, e, net, calls, resent);
    MoreTracked(s, e, net, calls);
    OtherTracked(s, p, net, calls, EventCalls(s, e, net), resent);
  }

  lemma OtherTracked(s: Session, p: Plan, net: Network, calls: seq<Call>, more: seq<Call>, resent: set<nat>)
    requires Tracked(p.first, calls, resent) && Grows(s, p.first, calls, resent)
    requires MidFits(p.first) && !p.ending.ThenRetry?
    requires calls + Issued(p.first.nextId, p.first.lastMid, p.app) == calls + more
    ensures Tracked(Carry(p, net), calls + more, resent) && Grows(s, Carry(p, net), calls + more, resent)
  {
    MoreCalls(s, p.first, calls, more, resent);
    CalledBackTracked(p, net, calls, resent);
    GrowsTrans(s, p.first, Carry(p, net), calls + more, resent);
  }

  /** What an event publishes outside a retry pass comes from a call, and carries the flag exactly if
    a retry pass has sent for the message before; a retry pass sets the flag on all it publishes. */
  lemma StepPublished(s: Session, e: Event, net: Network, calls: seq<Call>, resent: set<nat>)
    requires Tracked(s, calls, resent) && MidFits(s)
    ensures var t, n := Step(s, e, net), RetryStart(s, e, net);
            var all := calls + EventCalls(s, e, net);
            && Tracked(t, all, resent + ResentBy(s, e, net))
            && s.log <= t.log && |s.log| <= n <= |t.log|
            && (forall k :: |s.log| <= k < n && IsPublish(t.log[k]) ==>
                  FromCall(t.log[k], all) && (t.log[k].packet.dup <==> t.log[k].packet.id in resent))
            && (forall k :: n <= k < |t.log| && IsPublish(t.log[k]) ==>
                  FromCall(t.log[k], all) && t.log[k].packet.dup)
  {
    var t, n := Step(s, e, net), RetryStart(s, e, net);
    var all := calls + EventCalls(s, e, net);
    if Accepted(s, e) {
      AcceptedPublished(s, e, net, calls, resent);
      var u := BeforeRetry(s, e, net);
      forall k | |s.log| <= k < n ensures Fresh(t.log[k], all, resent) {
        assert t.log[k] == u.log[k];
      }
      forall k | n <= k < |t.log| ensures Again(t.log[k], all) {
      }
    } else {
      OtherPublished(s, e, net, calls, resent);
      assert resent + {} == resent;
      forall k | |s.log| <= k < n ensures Fresh(t.log[k], all, resent) {
      }
    }
  }

  function RunResent(s: Session, events: seq<Event>, net: Network): set<nat>
    decreases |events|
  {
    if events == [] then {}
    else ResentBy(s, events[0], net) + RunResent(Step(s, events[0], net), events[1..], net)
  }

  lemma BackedMore(s: Session, e: Event, net: Network, calls: seq<Call>, resent: set<nat>)
    requires Tracked(s, calls, resent) && MidFits(s) && Backed(s.log, calls)
    ensures Backed(Step(s, e, net).log, calls + EventCalls(s, e, net))
  {
    var t, all := Step(s, e, net), calls + EventCalls(s, e, net);
    StepPublished(s, e, net, calls, resent);
    forall k | 0 <= k < |t.log| && IsPublish(t.log[k]) ensures FromCall(t.log[k], all) {
      if k < |s.log| {
        assert t.log[k] == s.log[k] && FromCall(s.log[k], calls);
      }
    }
  }

  /** The same over whole runs, with what the calls and the retry passes of the run add. */
  lemma {:induction false} RunPublished(s: Session, events: seq<Event>, net: Network,
                                        calls: seq<Call>, resent: set<nat>)
    requires Tracked(s, calls, resent) && MidFits(s) && Backed(s.log, calls)
    ensures var t, all := Run(s, events, net), calls + RunCalls(s, events, net);
            Backed(t.log, all) && Tracked(t, all, resent + RunResent(s, events, net))
    decreases |events|
  {
    if events == [] {
      assert calls + [] == calls && resent + {} == resent;
    } else {
      var e, t := events[0], Step(s, events[0], net);
      StepPublished(s, e, net, calls, resent);
      BackedMore(s, e, net, calls, resent);
      StepHolds(s, e, net);
      RunPublished(t, events[1..], net, calls + EventCalls(s, e, net), resent + ResentBy(s, e, net));
      assert calls + EventCalls(s, e, net) + RunCalls(t, events[1..], net) ==
             calls + (EventCalls(s, e, net) + RunCalls(t, events[1..], net));
      assert resent + ResentBy(s, e, net) + RunResent(t, events[1..], net) ==
             resent + (ResentBy(s, e, net) + RunResent(t, events[1..], net));
    }
  }

  // ---------- from the initial session ----------

  predicate Ascending(calls: seq<Call>, low: nat, high: nat) {
    && (forall i, j :: 0 <= i < j < |calls| ==> calls[i].id < calls[j].id)
    && (forall i :: 0 <= i < |calls| ==> low <= calls[i].id < high)
  }

  lemma ReceiveCounts(s: Session, p: Received, app: seq<Request>, net: Network)
    ensures ReceivePlan(s, p, app, net).first.nextId >= s.nextId
  {
  }

  lemma FirstCounts(s: Session, e: Event, net: Network)
    ensures PlanOf(s, e, net).first.nextId >= s.nextId
  {
    if e.Receive? {
      ReceiveCounts(s, e.packet, e.app, net);
    }
  }

  lemma EventAscending(s: Session, e: Event, net: Network)
    requires MidFits(s)
    ensures Ascending(EventCalls(s, e, net), s.nextId, Step(s, e, net).nextId)
    ensures s.nextId <= Step(s, e, net).nextId
  {
    var p, calls := PlanOf(s, e, net), EventCalls(s, e, net);
    StepIsPlan(s, e, net);
    FirstHolds(s, e, net);
    FirstCounts(s, e, net);
    CarryHolds(p, net);
    if p.app != [] {
      forall i | 0 <= i < |calls| ensures calls[i].id == p.first.nextId + i {
        IssuedAt(p.first.nextId, p.first.lastMid, p.app, i);
      }
    }
  }

  /** Each call of a run takes an identity of its own. */
  lemma {:induction false} RunAscending(s: Session, events: seq<Event>, net: Network)
    requires MidFits(s)
    ensures Ascending(RunCalls(s, events, net), s.nextId, Run(s, events, net).nextId)
    ensures s.nextId <= Run(s, events, net).nextId
    decreases |events|
  {
    if events != [] {
      var t := Step(s, events[0], net);
      EventAscending(s, events[0], net);
      StepHolds(s, events[0], net);
      RunAscending(t, events[1..], net);
    }
  }

  lemma EventMids(s: Session, e: Event, net: Network, i: nat)
    requires MidFits(s) && i < |EventCalls(s, e, net)|
    ensures EventCalls(s, e, net)[i].mid == (s.lastMid + i) % 65535 + 1
  {
    var p := PlanOf(s, e, net);
    FirstHolds(s, e, net);
    SameCallsMade(s, e, net);
    IssuedAt(p.first.nextId, p.first.lastMid, p.app, i);
  }

  lemma EventLastMid(s: Session, e: Event, net: Network)
    requires MidFits(s)
    ensures var n, t := |EventCalls(s, e, net)|, Step(s, e, net);
            MidFits(t) && (t.lastMid == if n == 0 then s.lastMid else (s.lastMid + n - 1) % 65535 + 1)
  {
    EventCalled(s, e, net);
    if |EventCalls(s, e, net)| > 0 {
      EventMids(s, e, net, |EventCalls(s, e, net)| - 1);
    }
  }

  /** Over a whole run the calls take the packet identifiers from 1 to 65535 in turn, round and round. */
  lemma {:induction false} RunMids(s: Session, events: seq<Event>, net: Network, i: nat)
    requires MidFits(s) && i < |RunCalls(s, events, net)|
    ensures RunCalls(s, events, net)[i].mid == (s.lastMid + i) % 65535 + 1
    decreases |events|
  {
    var now, t := EventCalls(s, events[0], net), Step(s, events[0], net);
    var later := RunCalls(t, events[1..], net);
    assert RunCalls(s, events, net) == now + later;
    EventLastMid(s, events[0], net);
    if i < |now| {
      EventMids(s, events[0], net, i);
    } else {
      RunMids(t, events[1..], net, i - |now|);
      Shifted(s.lastMid, |now|, t.lastMid, i - |now|);
    }
  }

  lemma Shifted(x: nat, n: nat, y: nat, i: nat)
    requires y == if n == 0 then x else (x + n - 1) % 65535 + 1
    ensures (y + i) % 65535 == (x + (i + n)) % 65535
  {
    if n > 0 {
      Around(x + n - 1, 1 + i);
    }
  }

  /** From the initial session, over any run: each PUBLISH in the log has the packet identifier, the
    quality of service and the payload of the one publish call that took its identity. */
  lemma PublishedAsCalled(protocol: ProtocolVersion, outMax: nat, inMax: nat, events: seq<Event>, net: Network, k: nat)
    requires k < |Run(Initial(protocol, outMax, inMax), events, net).log|
    requires IsPublish(Run(Initial(protocol, outMax, inMax), events, net).log[k])
    ensures var s := Initial(protocol, outMax, inMax);
            var calls, p := RunCalls(s, events, net), Run(s, events, net).log[k].packet;
            && (exists i :: 0 <= i < |calls| && calls[i].id == p.id)
            && (forall i :: 0 <= i < |calls| && calls[i].id == p.id ==>
                  p.mid == calls[i].mid == i % 65535 + 1 && p.qos == calls[i].qos && p.body == calls[i].body)
  {
    var s := Initial(protocol, outMax, inMax);
    var calls, o := RunCalls(s, events, net), Run(s, events, net).log[k];
    assert Tracked(s, [], {});
    RunPublished(s, events, net, [], {});
    assert [] + calls == calls;
    RunAscending(s, events, net);
    OneCall(o, calls, s.nextId, Run(s, events, net).nextId);
    forall i | 0 <= i < |calls| ensures calls[i].mid == i % 65535 + 1 {
      RunMids(s, events, net, i);
    }
  }

  lemma OneCall(o: Output, calls: seq<Call>, low: nat, high: nat)
    requires IsPublish(o) && FromCall(o, calls) && Ascending(calls, low, high)
    ensures exists i :: 0 <= i < |calls| && calls[i].id == o.packet.id
    ensures forall i :: 0 <= i < |calls| && calls[i].id == o.packet.id ==>
      o.packet.mid == calls[i].mid && o.packet.qos == calls[i].qos && o.packet.body == calls[i].body
  {
    var j :| 0 <= j < |calls| && calls[j] == Call(o.packet.id, o.packet.mid, o.packet.qos, o.packet.body);
    forall i | 0 <= i < |calls| && calls[i].id == o.packet.id ensures i == j {
    }
  }

  /** And the flag of a queued message says whether a retry pass of the run has sent for it. */
  lemma FlagSaysResent(protocol: ProtocolVersion, outMax: nat, inMax: nat, events: seq<Event>, net: Network)
    ensures var s := Initial(protocol, outMax, inMax);
            var q := Run(s, events, net).outq;
            forall i :: 0 <= i < |q| ==> (q[i].dup <==> q[i].id in RunResent(s, events, net))
  {
    var s := Initial(protocol, outMax, inMax);
    assert Tracked(s, [], {});
    RunPublished(s, events, net, [], {});
    assert {} + RunResent(s, events, net) == RunResent(s, events, net);
  }
}
