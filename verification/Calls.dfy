/** What the application asked for, against what is queued and what is sent, over every run: no
  QoS 1 or 2 message is lost or altered, and each PUBLISH carries what its publish call gave it. */
module Calls {
  import opened Common
  import opened Exchange
  import opened MessageFlow
  import opened SendWindow

  // ---------- the calls ----------

  /** A publish call that was not refused: the message's identity, the packet identifier generated
    for it, and what the application passed. */
  datatype Call = Call(id: nat, mid: nat, qos: int, body: string)

  /** The calls that requests made in a row amount to, the identifiers going round 1..65535. */
  function Issued(nextId: nat, lastMid: nat, reqs: seq<Request>): seq<Call>
    decreases |reqs|
  {
    if reqs == [] then []
    else if reqs[0].qos < 0 || reqs[0].qos > 2 then Issued(nextId, lastMid, reqs[1..])
    else
      var mid := lastMid % 65535 + 1;
      [Call(nextId, mid, reqs[0].qos, reqs[0].body)] + Issued(nextId + 1, mid, reqs[1..])
  }

  function MidAfter(lastMid: nat, calls: seq<Call>): nat {
    if calls == [] then lastMid else calls[|calls| - 1].mid
  }

  /** The queue holds a message of that quality of service under that identifier, before any other
    one with it. */
  predicate Finds(q: seq<Message>, mid: nat, qos: int) {
    var i := FirstMid(q, mid);
    i < |q| && q[i].qos == qos
  }

  /** A well-formed acknowledgement reaches the lookup of its identifier. */
  predicate Reaches(s: Session, a: Ack) {
    s.sock && s.cs == Active && a.Ack? && a.mid != 0
  }

  /** A PUBREC with a reason code that ends the exchange. */
  predicate Rejects(s: Session, a: Ack) {
    Reaches(s, a) && a.reason >= 128 && s.protocol == Mqtt5
  }

  /** An incoming PUBLISH passes the checks before the switch on its quality of service. */
  predicate Accepts(s: Session, p: Received)
    requires p.RecvPublish?
  {
    && s.sock && s.cs == Active && !p.bad && 0 <= p.qos <= 2
    && (p.qos > 0 ==> p.mid != 0 && !(s.protocol == Mqtt5 && s.inQuota == 0))
  }

  /** The packet makes the library call the application. */
  predicate CallsBack(s: Session, p: Received, net: Network) {
    match p
    case RecvPuback(a) => Reaches(s, a) && Finds(s.outq, a.mid, 1)
    case RecvPubcomp(a) => Reaches(s, a) && Finds(s.outq, a.mid, 2)
    case RecvPubrec(a) => Rejects(s, a) && Finds(s.outq, a.mid, 2)
    case RecvPubrel(a) => Reaches(s, a) && Finds(s.inq, a.mid, 2) && net(s.sends)
    case RecvPublish(_, qos, _, _) => Accepts(s, p) && qos <= 1
    case RecvConnack(bad, _, _) => s.sock && !bad
  }

  /** The publish calls made in an event. */
  function Made(s: Session, e: Event, net: Network): seq<Request> {
    match e
    case AppPublish(req) => [req]
    case Receive(p, app) => if CallsBack(s, p, net) then app else []
    case _ => []
  }

  function EventCalls(s: Session, e: Event, net: Network): seq<Call> {
    var id := if e.Receive? && e.packet.RecvPublish? then s.nextId + 1 else s.nextId;
    Issued(id, s.lastMid, Made(s, e, net))
  }

  function RunCalls(s: Session, events: seq<Event>, net: Network): seq<Call>
    decreases |events|
  {
    if events == [] then [] else EventCalls(s, events[0], net) + RunCalls(Step(s, events[0], net), events[1..], net)
  }

  // ---------- identifiers ----------

  predicate MidFits(s: Session) {
    s.lastMid <= 65535
  }

  /** Identities count up from the first one, and packet identifiers go round the 65535 values. */
  lemma {:induction false} IssuedAt(nextId: nat, lastMid: nat, reqs: seq<Request>, i: nat)
    requires i < |Issued(nextId, lastMid, reqs)|
    ensures var c := Issued(nextId, lastMid, reqs)[i];
            c.id == nextId + i && c.mid == (lastMid + i) % 65535 + 1
    decreases |reqs|
  {
    if reqs[0].qos < 0 || reqs[0].qos > 2 {
      IssuedAt(nextId, lastMid, reqs[1..], i);
    } else if i > 0 {
      var mid := lastMid % 65535 + 1;
      IssuedAt(nextId + 1, mid, reqs[1..], i - 1);
      Around(lastMid, i);
    }
  }

  lemma Around(x: nat, i: nat)
    ensures (x % 65535 + i) % 65535 == (x + i) % 65535
  {
  }

  /** A packet identifier comes back only after all the other ones. */
  lemma MidsDistinct(nextId: nat, lastMid: nat, reqs: seq<Request>, i: nat, j: nat)
    requires i < j < |Issued(nextId, lastMid, reqs)| && j - i < 65535
    ensures Issued(nextId, lastMid, reqs)[i].mid != Issued(nextId, lastMid, reqs)[j].mid
  {
    IssuedAt(nextId, lastMid, reqs, i);
    IssuedAt(nextId, lastMid, reqs, j);
    Apart(lastMid + i, j - i);
  }

  lemma Apart(x: nat, d: nat)
    requires 0 < d < 65535
    ensures (x + d) % 65535 != x % 65535
  {
  }

  lemma NextMidRound(lastMid: nat)
    requires lastMid <= 65535
    ensures NextMid(lastMid) == lastMid % 65535 + 1
  {
  }

  // ---------- what the queue holds ----------

  /** The call a queued message comes from. */
  function CallOf(m: Message): Call {
    Call(m.id, m.mid, m.qos, m.body)
  }

  function Held(q: seq<Message>): (calls: seq<Call>)
    ensures |calls| == |q|
    ensures forall i :: 0 <= i < |q| ==> calls[i] == CallOf(q[i])
  {
    seq(|q|, i requires 0 <= i < |q| => CallOf(q[i]))
  }

  /** The calls that are queued: those of QoS 1 and 2. */
  function Queued(calls: seq<Call>): seq<Call> {
    if calls == [] then []
    else (if calls[0].qos > 0 then [calls[0]] else []) + Queued(calls[1..])
  }

  /** The same messages, up to state and flag. */
  predicate SameCalls(q: seq<Message>, r: seq<Message>) {
    |q| == |r| && forall i :: 0 <= i < |q| ==> CallOf(r[i]) == CallOf(q[i])
  }

  lemma SameHeld(q: seq<Message>, r: seq<Message>)
    requires SameCalls(q, r)
    ensures Held(r) == Held(q)
  {
  }

  lemma HeldAppend(q: seq<Message>, m: Message)
    ensures Held(q + [m]) == Held(q) + [CallOf(m)]
  {
  }

  lemma HeldRemove(q: seq<Message>, i: nat)
    requires i < |q|
    ensures Held(RemoveAt(q, i)) == Held(q)[..i] + Held(q)[i + 1..]
  {
    var r, h := RemoveAt(q, i), Held(q)[..i] + Held(q)[i + 1..];
    forall j | 0 <= j < |r| ensures Held(r)[j] == h[j] {
      assert r[j] == if j < i then q[j] else q[j + 1];
    }
  }

  lemma {:induction false} ReleaseCalls(q: seq<Message>, quota: int, sock: bool, sends: nat, net: Network)
    ensures SameCalls(q, ReleaseQueue(q, quota, sock, sends, net).q)
    decreases |q|
  {
    if q != [] && quota > 0 {
      if q[0].qos > 0 && q[0].state == Invalid {
        ReleaseCalls(q[1..], Decrement(quota), sock, sends + 1, net);
      } else {
        ReleaseCalls(q[1..], quota, sock, sends, net);
      }
    }
  }

  lemma ReleaseHolds(s: Session, net: Network)
    ensures var t := Release(s, net).s;
            Held(t.outq) == Held(s.outq) && t.nextId == s.nextId && t.lastMid == s.lastMid
  {
    ReleaseCalls(s.outq, s.outQuota, s.sock, s.sends, net);
    SameHeld(s.outq, Release(s, net).s.outq);
  }

  lemma RetryHolds(s: Session, net: Network)
    ensures var t := Retry(s, net);
            Held(t.outq) == Held(s.outq) && t.nextId == s.nextId && t.lastMid == s.lastMid
  {
    RetryKeepsStates(s.outq, s.sock, s.sends, net);
    SameHeld(s.outq, Retry(s, net).outq);
  }

  lemma ResetHolds(s: Session, quotaOnly: bool)
    ensures Held(Reset(s, quotaOnly).outq) == Held(s.outq)
  {
    ResetPositions(s.outq, s.outMax, quotaOnly);
    SameHeld(s.outq, Reset(s, quotaOnly).outq);
  }

  /** From s to t the application made these calls. */
  predicate Called(s: Session, t: Session, calls: seq<Call>) {
    && Held(t.outq) == Held(s.outq) + Queued(calls)
    && t.nextId == s.nextId + |calls|
    && t.lastMid == MidAfter(s.lastMid, calls)
  }

  lemma PublishCalled(s: Session, req: Request, net: Network)
    requires MidFits(s)
    ensures Called(s, PublishStep(s, req, net).s, Issued(s.nextId, s.lastMid, [req]))
    ensures MidFits(PublishStep(s, req, net).s)
  {
    NextMidRound(s.lastMid);
    assert [req][1..] == [];
    if 0 <= req.qos <= 2 {
      var mid := s.lastMid % 65535 + 1;
      var m := Message(s.nextId, mid, req.qos, Invalid, false, req.body);
      var s1 := s.(lastMid := mid, nextId := s.nextId + 1);
      assert Issued(s.nextId, s.lastMid, [req]) == [CallOf(m)];
      assert Queued([CallOf(m)]) == if req.qos > 0 then [CallOf(m)] else [];
      if req.qos > 0 {
        HeldAppend(s.outq, m);
        ReleaseHolds(s1.(outq := s.outq + [m], outLen := s.outLen + 1), net);
      } else {
        assert Held(s.outq) + [] == Held(s.outq);
      }
    } else {
      assert Held(s.outq) + [] == Held(s.outq);
    }
  }

  lemma {:induction false} QueuedAppend(a: seq<Call>, b: seq<Call>)
    ensures Queued(a + b) == Queued(a) + Queued(b)
    decreases |a|
  {
    if a == [] {
      assert a + b == b;
    } else {
      assert (a + b)[1..] == a[1..] + b;
      QueuedAppend(a[1..], b);
    }
  }

  lemma CalledTrans(s: Session, t: Session, u: Session, a: seq<Call>, b: seq<Call>)
    requires Called(s, t, a) && Called(t, u, b)
    ensures Called(s, u, a + b)
  {
    QueuedAppend(a, b);
    assert Held(s.outq) + Queued(a) + Queued(b) == Held(s.outq) + (Queued(a) + Queued(b));
  }

  lemma IssuedCons(nextId: nat, lastMid: nat, reqs: seq<Request>)
    requires reqs != []
    ensures var head := Issued(nextId, lastMid, [reqs[0]]);
            Issued(nextId, lastMid, reqs) ==
            head + Issued(nextId + |head|, MidAfter(lastMid, head), reqs[1..])
  {
    assert [reqs[0]][1..] == [];
    var rest := Issued(nextId, lastMid, reqs[1..]);
    assert [] + rest == rest;
  }

  lemma {:induction false} RunAppCalled(s: Session, app: seq<Request>, net: Network)
    requires MidFits(s)
    ensures Called(s, RunApp(s, app, net), Issued(s.nextId, s.lastMid, app))
    ensures MidFits(RunApp(s, app, net))
    decreases |app|
  {
    if app == [] {
      assert Held(s.outq) + [] == Held(s.outq);
    } else {
      var t := PublishStep(s, app[0], net).s;
      var head := Issued(s.nextId, s.lastMid, [app[0]]);
      PublishCalled(s, app[0], net);
      RunAppCalled(t, app[1..], net);
      IssuedCons(s.nextId, s.lastMid, app);
      CalledTrans(s, t, RunApp(t, app[1..], net), head, Issued(t.nextId, t.lastMid, app[1..]));
    }
  }

  // ---------- the queue over events ----------

  /** The acknowledgement ends the exchange of the queued message it names: PUBACK at QoS 1, PUBCOMP
    or a PUBREC with an error at QoS 2. */
  predicate Ends(s: Session, p: Received) {
    match p
    case RecvPuback(a) => Reaches(s, a) && Finds(s.outq, a.mid, 1)
    case RecvPubcomp(a) => Reaches(s, a) && Finds(s.outq, a.mid, 2)
    case RecvPubrec(a) => Rejects(s, a) && Finds(s.outq, a.mid, 2)
    case _ => false
  }

  function AckOf(p: Received): Ack
    requires p.RecvPuback? || p.RecvPubcomp? || p.RecvPubrec?
  {
    match p
    case RecvPuback(a) => a
    case RecvPubcomp(a) => a
    case RecvPubrec(a) => a
  }

  /** The calls whose messages stay queued through an event: all but the one that is acknowledged. */
  function Kept(s: Session, e: Event): seq<Call> {
    if e.Receive? && Ends(s, e.packet) then
      var i := FirstMid(s.outq, AckOf(e.packet).mid);
      Held(s.outq)[..i] + Held(s.outq)[i + 1..]
    else
      Held(s.outq)
  }

  function Ended(s: Session, e: Event): seq<Call> {
    if e.Receive? && Ends(s, e.packet) then [CallOf(s.outq[FirstMid(s.outq, AckOf(e.packet).mid)])] else []
  }

  lemma AckFirst(s: Session, a: Ack, qos: int, app: seq<Request>)
    requires s.sock
    ensures var p := AckPlan(s, a, qos, app);
            var found := Reaches(s, a) && Finds(s.outq, a.mid, qos);
            && p.app == (if found then app else [])
            && (if found then p.first.outq == RemoveAt(s.outq, FirstMid(s.outq, a.mid)) else p.first.outq == s.outq)
            && p.first.nextId == s.nextId && p.first.lastMid == s.lastMid && p.first.sock
  {
  }

  /** What the session at the callback, and the callback, have of the session before the event. */
  predicate FirstOk(s: Session, e: Event, net: Network) {
    var p := PlanOf(s, e, net);
    && Held(p.first.outq) == Kept(s, e)
    && p.first.lastMid == s.lastMid
    && p.app == Made(s, e, net)
    && (p.app != [] ==>
          p.first.nextId == if e.Receive? && e.packet.RecvPublish? then s.nextId + 1 else s.nextId)
  }

  lemma AckFirstHolds(s: Session, p: Received, app: seq<Request>, net: Network)
    requires s.sock && (p.RecvPuback? || p.RecvPubcomp?)
    ensures FirstOk(s, Receive(p, app), net)
  {
    AckFirst(s, AckOf(p), if p.RecvPuback? then 1 else 2, app);
    if Ends(s, p) {
      HeldRemove(s.outq, FirstMid(s.outq, AckOf(p).mid));
    }
  }

  lemma IncomingFirstHolds(s: Session, p: Received, app: seq<Request>, net: Network)
    requires s.sock && (p.RecvPubrel? || p.RecvPublish?)
    ensures FirstOk(s, Receive(p, app), net)
  {
    assert PlanOf(s, Receive(p, app), net).first.outq == s.outq;
  }

  lemma ConnackFirstHolds(s: Session, p: Received, app: seq<Request>, net: Network)
    requires s.sock && p.RecvConnack?
    ensures FirstOk(s, Receive(p, app), net)
  {
    ResetHolds(if p.receiveMax.Some? then s.(outMax := p.receiveMax.value) else s, true);
  }

  lemma FirstHolds(s: Session, e: Event, net: Network)
    ensures FirstOk(s, e, net)
  {
    match e
    case AppPublish(req) =>
    case Receive(p, app) =>
      if s.sock {
        match p {
          case RecvPuback(a) => AckFirstHolds(s, p, app, net);
          case RecvPubcomp(a) => AckFirstHolds(s, p, app, net);
          case RecvPubrec(a) => PubrecFirstHolds(s, a, app, net);
          case RecvPubrel(a) => IncomingFirstHolds(s, p, app, net);
          case RecvPublish(_, _, _, _) => IncomingFirstHolds(s, p, app, net);
          case RecvConnack(_, _, _) => ConnackFirstHolds(s, p, app, net);
        }
      }
    case SocketLost =>
    case Reconnect(refused) => ResetHolds(s, false);
    case AppDisconnect =>
  }

  lemma PubrecFirstHolds(s: Session, a: Ack, app: seq<Request>, net: Network)
    requires s.sock
    ensures FirstOk(s, Receive(RecvPubrec(a), app), net)
  {
    if Reaches(s, a) {
      var i := FirstMid(s.outq, a.mid);
      if a.reason < 0x80 || s.protocol != Mqtt5 {
        SameHeld(s.outq, CommitPlan(s, a.mid, net).first.outq);
      } else if Finds(s.outq, a.mid, 2) {
        HeldRemove(s.outq, i);
      }
    }
  }

  lemma CarryHolds(p: Plan, net: Network)
    requires MidFits(p.first)
    ensures Called(p.first, Carry(p, net), Issued(p.first.nextId, p.first.lastMid, p.app))
    ensures MidFits(Carry(p, net))
  {
    var u := RunApp(p.first, p.app, net);
    RunAppCalled(p.first, p.app, net);
    EndingHolds(p, u, net);
    CalledSame(p.first, u, Carry(p, net), Issued(p.first.nextId, p.first.lastMid, p.app));
  }

  lemma CalledSame(s: Session, t: Session, u: Session, calls: seq<Call>)
    requires Called(s, t, calls)
    requires Held(u.outq) == Held(t.outq) && u.nextId == t.nextId && u.lastMid == t.lastMid
    ensures Called(s, u, calls)
  {
  }

  lemma EndingHolds(p: Plan, u: Session, net: Network)
    requires u == RunApp(p.first, p.app, net)
    ensures var t := Carry(p, net);
            Held(t.outq) == Held(u.outq) && t.nextId == u.nextId && t.lastMid == u.lastMid
  {
    match p.ending
    case Plain =>
    case ThenRelease(give) => ReleaseHolds(if give then Given(u) else u, net);
    case ThenRetry => RetryHolds(NowActive(u), net);
  }

  lemma SameCallsMade(s: Session, e: Event, net: Network)
    ensures var p := PlanOf(s, e, net);
            Issued(p.first.nextId, p.first.lastMid, p.app) == EventCalls(s, e, net)
  {
    FirstHolds(s, e, net);
  }

  lemma EventCalled(s: Session, e: Event, net: Network)
    requires MidFits(s)
    ensures Step(s, e, net).lastMid == MidAfter(s.lastMid, EventCalls(s, e, net)) && MidFits(Step(s, e, net))
  {
    StepIsPlan(s, e, net);
    FirstHolds(s, e, net);
    SameCallsMade(s, e, net);
    CarryHolds(PlanOf(s, e, net), net);
  }

  /** After any event the queue holds, in order, the messages of before except the one whose exchange
    was ended, and behind them the QoS 1 and 2 calls made in the event, as they were made. */
  lemma StepHolds(s: Session, e: Event, net: Network)
    requires MidFits(s)
    ensures var t := Step(s, e, net);
            Held(t.outq) == Kept(s, e) + Queued(EventCalls(s, e, net)) && MidFits(t)
  {
    var p := PlanOf(s, e, net);
    StepIsPlan(s, e, net);
    FirstHolds(s, e, net);
    CarryHolds(p, net);
  }

  function RunEnded(s: Session, events: seq<Event>, net: Network): seq<Call>
    decreases |events|
  {
    if events == [] then [] else Ended(s, events[0]) + RunEnded(Step(s, events[0], net), events[1..], net)
  }

  lemma KeptAndEnded(s: Session, e: Event)
    ensures multiset(Held(s.outq)) == multiset(Kept(s, e)) + multiset(Ended(s, e))
  {
    var h := Held(s.outq);
    if e.Receive? && Ends(s, e.packet) {
      var i := FirstMid(s.outq, AckOf(e.packet).mid);
      TakeOut(h, i);
      assert Ended(s, e) == [h[i]] && Kept(s, e) == h[..i] + h[i + 1..];
    }
  }

  lemma TakeOut(h: seq<Call>, i: nat)
    requires i < |h|
    ensures multiset(h) == multiset(h[..i] + h[i + 1..]) + multiset([h[i]])
  {
    assert h == h[..i] + [h[i]] + h[i + 1..];
  }

  lemma Balance(first: multiset<Call>, kept: multiset<Call>, ended: multiset<Call>, made: multiset<Call>,
                later: multiset<Call>, endedLater: multiset<Call>, last: multiset<Call>)
    requires first == kept + ended
    requires (kept + made) + later == endedLater + last
    ensures first + (made + later) == (ended + endedLater) + last
  {
    assert first + (made + later) == ended + ((kept + made) + later);
  }

  /** No message is lost, altered or invented: over every run, with any broker and any failing
    sends, the messages queued at first and the QoS 1 and 2 calls are those whose exchange was ended
    by an acknowledgement and those still queued. */
  lemma {:induction false} NothingLost(s: Session, events: seq<Event>, net: Network)
    requires MidFits(s)
    ensures multiset(Held(s.outq)) + multiset(Queued(RunCalls(s, events, net))) ==
            multiset(RunEnded(s, events, net)) + multiset(Held(Run(s, events, net).outq))
    decreases |events|
  {
    if events != [] {
      var e, t := events[0], Step(s, events[0], net);
      StepHolds(s, e, net);
      KeptAndEnded(s, e);
      NothingLost(t, events[1..], net);
      var made, later := EventCalls(s, e, net), RunCalls(t, events[1..], net);
      QueuedAppend(made, later);
      Balance(multiset(Held(s.outq)), multiset(Kept(s, e)), multiset(Ended(s, e)), multiset(Queued(made)),
              multiset(Queued(later)), multiset(RunEnded(t, events[1..], net)),
              multiset(Held(Run(t, events[1..], net).outq)));
    }
  }
}
