/** What the library says to the network and to the application, over every run, PUBLISH packets
  above QoS 0 apart: which answers, callbacks and retries there are, in which order and with which
  contents; and which events open and close the connection. */
module Conversation {
  import opened Calls
  import opened Common
  import opened Exchange
  import opened MessageFlow
  import opened Published
  import opened SendWindow
  import R = Receive

  // ---------- the retry pass ----------

  /** What a retry pass sends, message by message in queue order. */
  function RetryOutputs(q: seq<Message>, sock: bool, sends: nat, net: Network): seq<Output>
    decreases |q|
  {
    if q == [] then []
    else
      var m, ok := q[0], sock && net(sends);
      match m.state
      case PublishQos1 =>
        [Sent(Publish(m.id, m.mid, m.qos, true, m.body), ok)] + RetryOutputs(q[1..], sock, sends + 1, net)
      case PublishQos2 =>
        [Sent(Publish(m.id, m.mid, m.qos, true, m.body), ok)] + RetryOutputs(q[1..], sock, sends + 1, net)
      case ResendPubrel => [Sent(Pubrel(m.mid), ok)] + RetryOutputs(q[1..], sock, sends + 1, net)
      case WaitForPubcomp => [Sent(Pubrel(m.mid), ok)] + RetryOutputs(q[1..], sock, sends + 1, net)
      case WaitForPubrel => [Sent(Pubrec(m.mid), ok)] + RetryOutputs(q[1..], sock, sends + 1, net)
      case _ => RetryOutputs(q[1..], sock, sends, net)
  }

  lemma {:induction false} RetryLog(q: seq<Message>, sock: bool, sends: nat, net: Network)
    ensures RetryQueue(q, sock, sends, net).log == RetryOutputs(q, sock, sends, net)
    decreases |q|
  {
    if q != [] {
      RetryLog(q[1..], sock, if RetryPacket(q[0]).None? then sends else sends + 1, net);
    }
  }

  /** The log holds an attempt to send this packet from this position on. */
  predicate Attempted(log: seq<Output>, from: nat, p: Packet) {
    exists k :: from <= k < |log| && log[k].Sent? && log[k].packet == p
  }

  lemma AttemptedTail(log: seq<Output>, o: Output, p: Packet)
    requires Attempted(log, 0, p)
    ensures Attempted([o] + log, 0, p)
  {
    var k :| 0 <= k < |log| && log[k].Sent? && log[k].packet == p;
    assert ([o] + log)[k + 1] == log[k];
  }

  /** What the states in flight call for. */
  predicate Served(m: Message, log: seq<Output>, from: nat) {
    && (m.state == PublishQos1 || m.state == PublishQos2 ==>
          Attempted(log, from, Publish(m.id, m.mid, m.qos, true, m.body)))
    && (m.state == ResendPubrel || m.state == WaitForPubcomp ==> Attempted(log, from, Pubrel(m.mid)))
  }

  lemma ServedHead(m: Message, p: Packet, ok: bool, rest: seq<Output>)
    requires m.state == PublishQos1 || m.state == PublishQos2 ==> p == Publish(m.id, m.mid, m.qos, true, m.body)
    requires m.state == ResendPubrel || m.state == WaitForPubcomp ==> p == Pubrel(m.mid)
    ensures Served(m, [Sent(p, ok)] + rest, 0)
  {
    assert ([Sent(p, ok)] + rest)[0] == Sent(p, ok);
  }

  lemma ServedTail(m: Message, o: Output, rest: seq<Output>)
    requires Served(m, rest, 0)
    ensures Served(m, [o] + rest, 0)
  {
    if m.state == PublishQos1 || m.state == PublishQos2 {
      AttemptedTail(rest, o, Publish(m.id, m.mid, m.qos, true, m.body));
    } else if m.state == ResendPubrel || m.state == WaitForPubcomp {
      AttemptedTail(rest, o, Pubrel(m.mid));
    }
  }

  lemma {:induction false} RetryServes(q: seq<Message>, sock: bool, sends: nat, net: Network, i: nat)
    requires i < |q|
    ensures Served(q[i], RetryQueue(q, sock, sends, net).log, 0)
    decreases |q|
  {
    var p := RetryPacket(q[0]);
    var rest := RetryQueue(q[1..], sock, if p.None? then sends else sends + 1, net).log;
    if i == 0 {
      if p.Some? {
        ServedHead(q[0], p.value, sock && net(sends), rest);
      }
    } else {
      RetryServes(q[1..], sock, if p.None? then sends else sends + 1, net, i - 1);
      if p.Some? {
        ServedTail(q[i], Sent(p.value, sock && net(sends)), rest);
      }
    }
  }

  lemma ServedFrom(m: Message, log: seq<Output>, extra: seq<Output>)
    requires Served(m, extra, 0)
    ensures Served(m, log + extra, |log|)
  {
    forall p | Attempted(extra, 0, p) ensures Attempted(log + extra, |log|, p) {
      var k :| 0 <= k < |extra| && extra[k].Sent? && extra[k].packet == p;
      assert (log + extra)[|log| + k] == extra[k];
    }
  }

  /** Every accepted CONNACK, in any session: for each message then queued, the retry pass repeats the
    PUBLISH if it waits to be published again, and sends PUBREL if its PUBREC has been processed. */
  lemma ConnackResumes(s: Session, e: Event, net: Network, i: nat)
    requires Accepted(s, e) && i < |Step(s, e, net).outq|
    ensures Served(Step(s, e, net).outq[i], Step(s, e, net).log, RetryStart(s, e, net))
  {
    var u, t := BeforeRetry(s, e, net), Step(s, e, net);
    StepIsPlan(s, e, net);
    assert t == Retry(NowActive(u), net);
    var r := RetryQueue(u.outq, u.sock, u.sends, net);
    RetryFlags(u.outq, u.sock, u.sends, net, i);
    RetryServes(u.outq, u.sock, u.sends, net, i);
    ServedFrom(u.outq[i], u.log, r.log);
  }

  /** The states that a reconnect and an accepted CONNACK find again. */
  predicate Resumable(m: Message) {
    m.qos == 1 || (m.qos == 2 && (m.state == PublishQos2 || m.state == WaitForPubrec
                                  || m.state == ResendPubrel || m.state == WaitForPubcomp))
  }

  lemma ReconnectedState(s: Session, net: Network, i: nat)
    requires i < |s.outq| && i < s.outMax && net(s.sends) && Resumable(s.outq[i])
    ensures var t := Step(s, Reconnect(false), net);
            && t.sock && |t.outq| == |s.outq| && t.outMax == s.outMax
            && t.outq[i] == s.outq[i].(state :=
                 if s.outq[i].qos == 1 then PublishQos1
                 else if s.outq[i].state == PublishQos2 || s.outq[i].state == WaitForPubrec then PublishQos2
                 else ResendPubrel)
  {
    ResetPositions(s.outq, s.outMax, false);
  }

  lemma ConnackKeepsState(t: Session, net: Network, i: nat)
    requires i < |t.outq| && i < t.outMax && t.sock
    ensures var u := Step(t, Receive(RecvConnack(false, 0, None), []), net);
            i < |u.outq| && u.outq[i] == t.outq[i].(dup := u.outq[i].dup)
  {
    ResetPositions(t.outq, t.outMax, true);
    RunNothing(Connecting(t, None), net);
    var v := NowActive(Connecting(t, None));
    RetryFlags(v.outq, v.sock, v.sends, net, i);
  }

  /** After a reconnect and the accepted CONNACK each exchange inside the maximum goes on where it
    stood: the PUBLISH is repeated, with the flag, unless its PUBREC was processed, and then PUBREL is
    sent. */
  lemma ExchangesResume(s: Session, net: Network, i: nat)
    requires i < |s.outq| && i < s.outMax && net(s.sends) && Resumable(s.outq[i])
    ensures var t := Step(s, Reconnect(false), net);
            var u := Step(t, Receive(RecvConnack(false, 0, None), []), net);
            var m := s.outq[i];
            Attempted(u.log, |t.log|,
                      if m.qos == 2 && (m.state == ResendPubrel || m.state == WaitForPubcomp) then Pubrel(m.mid)
                      else Publish(m.id, m.mid, m.qos, true, m.body))
  {
    var t, e := Step(s, Reconnect(false), net), Receive(RecvConnack(false, 0, None), []);
    ReconnectedState(s, net, i);
    ConnackKeepsState(t, net, i);
    ConnackResumes(t, e, net, i);
    RunNothing(Connecting(t, None), net);
    assert RetryStart(t, e, net) == |t.log|;
  }

  // ---------- the trace ----------

  /** Without PUBLISH packets above QoS 0, and without the results of the attempts. */
  function Shown(o: Output): seq<Output> {
    if !o.Sent? then [o]
    else if o.packet.Publish? && o.packet.qos > 0 then []
    else [Sent(o.packet, true)]
  }

  function Trace(log: seq<Output>): seq<Output> {
    if log == [] then [] else Trace(log[..|log| - 1]) + Shown(log[|log| - 1])
  }

  lemma {:induction false} TraceAppend(log: seq<Output>, extra: seq<Output>)
    ensures Trace(log + extra) == Trace(log) + Trace(extra)
    decreases |extra|
  {
    if extra == [] {
      assert log + extra == log;
    } else {
      var n := |extra| - 1;
      assert (log + extra)[..|log + extra| - 1] == log + extra[..n];
      TraceAppend(log, extra[..n]);
      assert Trace(log) + (Trace(extra[..n]) + Shown(extra[n])) == Trace(log) + Trace(extra[..n]) + Shown(extra[n]);
    }
  }

  lemma TraceOne(log: seq<Output>, o: Output)
    ensures Trace(log + [o]) == Trace(log) + Shown(o)
  {
    assert (log + [o])[..|log|] == log;
  }

  /** The QoS 0 calls, sent at once as they were made. */
  function SentAtOnce(calls: seq<Call>): seq<Output> {
    if calls == [] then []
    else
      var c := calls[0];
      (if c.qos == 0 then [Sent(Publish(c.id, c.mid, 0, false, c.body), true)] else []) + SentAtOnce(calls[1..])
  }

  /** What a packet makes the library send and tell the application before it calls it. */
  function Answer(s: Session, p: Received, net: Network): seq<Output> {
    match p
    case RecvPuback(a) => if Ends(s, p) then [OnPublish(a.mid)] else []
    case RecvPubcomp(a) => if Ends(s, p) then [OnPublish(a.mid)] else []
    case RecvPubrec(a) =>
      if Ends(s, p) then [OnPublish(a.mid)]
      else if !Reaches(s, a) || Rejects(s, a) then []
      else if FirstMid(s.outq, a.mid) < |s.outq| && !Finds(s.outq, a.mid, 2) then []
      else [Sent(Pubrel(a.mid), true)]
    case RecvPubrel(a) =>
      if !Reaches(s, a) then []
      else if !Finds(s.inq, a.mid, 2) then [Sent(Pubcomp(a.mid), true)]
      else
        var m := s.inq[FirstMid(s.inq, a.mid)];
        [Sent(Pubcomp(a.mid), true), if net(s.sends) then OnMessage(m) else Dropped(m)]
    case RecvPublish(_, qos, mid, body) =>
      if !Accepts(s, p) then []
      else if qos == 0 then [OnMessage(Message(s.nextId, 0, 0, Invalid, false, body))]
      else if qos == 1 then [Sent(Puback(mid), true), OnMessage(Message(s.nextId, mid, 1, Invalid, false, body))]
      else [Sent(Pubrec(mid), true)]
    case RecvConnack(_, _, _) => []
  }

  /** What an event adds to the trace. */
  function EventTrace(s: Session, e: Event, net: Network): seq<Output> {
    match e
    case AppPublish(req) => SentAtOnce(EventCalls(s, e, net))
    case SocketLost => []
    case Reconnect(refused) => if refused then [] else [Sent(Connect, true)]
    case AppDisconnect => if s.sock then [Sent(Disconnect, true)] else []
    case Receive(p, app) =>
      Answer(s, p, net) + SentAtOnce(EventCalls(s, e, net))
      + if Accepted(s, e) then
          var u := BeforeRetry(s, e, net);
          Trace(RetryOutputs(u.outq, u.sock, u.sends, net))
        else []
  }

  lemma {:induction false} ReleaseShowsNothing(q: seq<Message>, quota: int, sock: bool, sends: nat, net: Network)
    ensures Trace(ReleaseQueue(q, quota, sock, sends, net).log) == []
    decreases |q|
  {
    if q != [] && quota > 0 {
      if q[0].qos > 0 && q[0].state == Invalid {
        var o := Sent(Publish(q[0].id, q[0].mid, q[0].qos, q[0].dup, q[0].body), sock && net(sends));
        var rest := if o.ok then ReleaseQueue(q[1..], Decrement(quota), sock, sends + 1, net).log else [];
        if o.ok {
          ReleaseShowsNothing(q[1..], Decrement(quota), sock, sends + 1, net);
        }
        TraceAppend([o], rest);
        TraceOne([], o);
        assert [] + [o] == [o] && [o] + [] == [o];
      } else {
        ReleaseShowsNothing(q[1..], quota, sock, sends, net);
      }
    }
  }

  lemma ReleaseTrace(s: Session, net: Network)
    ensures Trace(Release(s, net).s.log) == Trace(s.log)
  {
    var r := ReleaseQueue(s.outq, s.outQuota, s.sock, s.sends, net);
    ReleaseShowsNothing(s.outq, s.outQuota, s.sock, s.sends, net);
    TraceAppend(s.log, r.log);
    assert Trace(s.log) + [] == Trace(s.log);
  }

  /** The trace of the one log is that of the other and this behind it. */
  predicate Adds(before: seq<Output>, log: seq<Output>, extra: seq<Output>) {
    Trace(log) == Trace(before) + extra
  }

  lemma AddsTrans(a: seq<Output>, b: seq<Output>, c: seq<Output>, x: seq<Output>, y: seq<Output>)
    requires Adds(a, b, x) && Adds(b, c, y)
    ensures Adds(a, c, x + y)
  {
    assert Trace(a) + x + y == Trace(a) + (x + y);
  }

  lemma AddsNone(log: seq<Output>)
    ensures Adds(log, log, [])
  {
    assert Trace(log) + [] == Trace(log);
  }

  lemma AddsOne(log: seq<Output>, o: Output)
    ensures Adds(log, log + [o], Shown(o))
  {
    TraceOne(log, o);
  }

  lemma AddsTwo(log: seq<Output>, a: Output, b: Output)
    ensures Adds(log, log + [a] + [b], Shown(a) + Shown(b))
  {
    AddsOne(log, a);
    AddsOne(log + [a], b);
    AddsTrans(log, log + [a], log + [a] + [b], Shown(a), Shown(b));
  }

  lemma PublishTrace(s: Session, req: Request, net: Network)
    requires MidFits(s)
    ensures Adds(s.log, PublishStep(s, req, net).s.log, SentAtOnce(Issued(s.nextId, s.lastMid, [req])))
  {
    NextMidRound(s.lastMid);
    assert [req][1..] == [];
    assert Trace(s.log) + [] == Trace(s.log);
    if 0 <= req.qos <= 2 {
      var c := Call(s.nextId, s.lastMid % 65535 + 1, req.qos, req.body);
      assert Issued(s.nextId, s.lastMid, [req]) == [c] && [c][1..] == [];
      if req.qos == 0 {
        TraceOne(s.log, Sent(Publish(c.id, c.mid, 0, false, c.body), s.sock && net(s.sends)));
      } else {
        var m := Message(s.nextId, c.mid, req.qos, Invalid, false, req.body);
        ReleaseTrace(s.(lastMid := c.mid, nextId := s.nextId + 1, outq := s.outq + [m], outLen := s.outLen + 1), net);
      }
    }
  }

  lemma {:induction false} AtOnceAppend(a: seq<Call>, b: seq<Call>)
    ensures SentAtOnce(a + b) == SentAtOnce(a) + SentAtOnce(b)
    decreases |a|
  {
    if a == [] {
      assert a + b == b;
    } else {
      assert (a + b)[1..] == a[1..] + b;
      AtOnceAppend(a[1..], b);
      var head := if a[0].qos == 0 then [Sent(Publish(a[0].id, a[0].mid, 0, false, a[0].body), true)] else [];
      assert head + (SentAtOnce(a[1..]) + SentAtOnce(b)) == head + SentAtOnce(a[1..]) + SentAtOnce(b);
    }
  }

  lemma {:induction false} RunAppTrace(s: Session, app: seq<Request>, net: Network)
    requires MidFits(s)
    ensures Adds(s.log, RunApp(s, app, net).log, SentAtOnce(Issued(s.nextId, s.lastMid, app)))
    decreases |app|
  {
    if app == [] {
      AddsNone(s.log);
    } else {
      var t := PublishStep(s, app[0], net).s;
      var u := RunApp(t, app[1..], net);
      var head, rest := Issued(s.nextId, s.lastMid, [app[0]]), Issued(t.nextId, t.lastMid, app[1..]);
      PublishTrace(s, app[0], net);
      PublishCalled(s, app[0], net);
      RunAppTrace(t, app[1..], net);
      IssuedCons(s.nextId, s.lastMid, app);
      AtOnceAppend(head, rest);
      AddsTrans(s.log, t.log, u.log, SentAtOnce(head), SentAtOnce(rest));
    }
  }

  lemma AckAnswer(s: Session, p: Received, app: seq<Request>, net: Network)
    requires s.sock && (p.RecvPuback? || p.RecvPubcomp?)
    ensures Adds(s.log, ReceivePlan(s, p, app, net).first.log, Answer(s, p, net))
  {
    if Ends(s, p) {
      AddsOne(s.log, OnPublish(AckOf(p).mid));
    } else {
      AddsNone(s.log);
      assert ReceivePlan(s, p, app, net).first.log == s.log;
    }
  }

  lemma PubrecAnswer(s: Session, a: Ack, app: seq<Request>, net: Network)
    requires s.sock
    ensures Adds(s.log, ReceivePlan(s, RecvPubrec(a), app, net).first.log, Answer(s, RecvPubrec(a), net))
  {
    var f, answer := ReceivePlan(s, RecvPubrec(a), app, net).first.log, Answer(s, RecvPubrec(a), net);
    if answer == [] {
      AddsNone(s.log);
      assert f == s.log;
    } else if Rejects(s, a) {
      AddsOne(s.log, OnPublish(a.mid));
      assert f == s.log + [OnPublish(a.mid)];
    } else {
      var o := Sent(Pubrel(a.mid), net(s.sends));
      AddsOne(s.log, o);
      assert f == s.log + [o];
    }
  }

  lemma PubrelAnswer(s: Session, a: Ack, app: seq<Request>, net: Network)
    requires s.sock
    ensures Adds(s.log, ReceivePlan(s, RecvPubrel(a), app, net).first.log, Answer(s, RecvPubrel(a), net))
  {
    var f, answer := ReceivePlan(s, RecvPubrel(a), app, net).first.log, Answer(s, RecvPubrel(a), net);
    if !Reaches(s, a) {
      AddsNone(s.log);
      assert f == s.log;
    } else {
      var o := Sent(Pubcomp(a.mid), net(s.sends));
      if Finds(s.inq, a.mid, 2) {
        var m := s.inq[FirstMid(s.inq, a.mid)];
        var note := if net(s.sends) then OnMessage(m) else Dropped(m);
        AddsTwo(s.log, o, note);
        assert f == s.log + [o] + [note];
        assert answer == Shown(o) + Shown(note);
      } else {
        AddsOne(s.log, o);
        assert f == s.log + [o];
      }
    }
  }

  lemma PublishAnswer(s: Session, p: Received, app: seq<Request>, net: Network)
    requires s.sock && p.RecvPublish?
    ensures Adds(s.log, ReceivePlan(s, p, app, net).first.log, Answer(s, p, net))
  {
    var f, answer := ReceivePlan(s, p, app, net).first.log, Answer(s, p, net);
    if !Accepts(s, p) {
      AddsNone(s.log);
      assert f == s.log;
    } else if p.qos == 0 {
      var note := OnMessage(Message(s.nextId, 0, 0, Invalid, false, p.body));
      AddsOne(s.log, note);
      assert f == s.log + [note];
    } else if p.qos == 1 {
      var o, note := Sent(Puback(p.mid), net(s.sends)), OnMessage(Message(s.nextId, p.mid, 1, Invalid, false, p.body));
      AddsTwo(s.log, o, note);
      assert f == s.log + [o] + [note];
      assert answer == Shown(o) + Shown(note);
    } else {
      var o := Sent(Pubrec(p.mid), net(s.sends));
      AddsOne(s.log, o);
      assert f == s.log + [o];
    }
  }

  lemma ReceiveAnswer(s: Session, p: Received, app: seq<Request>, net: Network)
    requires s.sock
    ensures Adds(s.log, ReceivePlan(s, p, app, net).first.log, Answer(s, p, net))
  {
    match p
    case RecvPuback(_) => AckAnswer(s, p, app, net);
    case RecvPubcomp(_) => AckAnswer(s, p, app, net);
    case RecvPubrec(a) => PubrecAnswer(s, a, app, net);
    case RecvPubrel(a) => PubrelAnswer(s, a, app, net);
    case RecvPublish(_, _, _, _) => PublishAnswer(s, p, app, net);
    case RecvConnack(_, _, _) => AddsNone(s.log);
  }

  /** What the retry pass after the callback shows, if there is one. */
  function EndTrace(p: Plan, net: Network): seq<Output> {
    var u := RunApp(p.first, p.app, net);
    if p.ending.ThenRetry? then Trace(RetryOutputs(u.outq, u.sock, u.sends, net)) else []
  }

  lemma EndingTrace(p: Plan, net: Network)
    ensures Adds(RunApp(p.first, p.app, net).log, Carry(p, net).log, EndTrace(p, net))
  {
    var u := RunApp(p.first, p.app, net);
    AddsNone(u.log);
    match p.ending
    case Plain =>
    case ThenRelease(give) => ReleaseTrace(if give then Given(u) else u, net);
    case ThenRetry =>
      RetryLog(u.outq, u.sock, u.sends, net);
      TraceAppend(u.log, RetryQueue(u.outq, u.sock, u.sends, net).log);
  }

  lemma CarryTrace(p: Plan, net: Network)
    requires MidFits(p.first)
    ensures Adds(p.first.log, Carry(p, net).log,
                 SentAtOnce(Issued(p.first.nextId, p.first.lastMid, p.app)) + EndTrace(p, net))
  {
    RunAppTrace(p.first, p.app, net);
    EndingTrace(p, net);
    AddsTrans(p.first.log, RunApp(p.first, p.app, net).log, Carry(p, net).log,
              SentAtOnce(Issued(p.first.nextId, p.first.lastMid, p.app)), EndTrace(p, net));
  }

  lemma SameEnd(s: Session, e: Event, net: Network)
    ensures EndTrace(PlanOf(s, e, net), net) ==
      if Accepted(s, e) then
        var u := BeforeRetry(s, e, net);
        Trace(RetryOutputs(u.outq, u.sock, u.sends, net))
      else []
  {
    RetriesIfAccepted(s, e, net);
  }

  lemma ReceiveTrace(s: Session, e: Event, net: Network)
    requires MidFits(s) && e.Receive? && s.sock
    ensures Adds(s.log, Step(s, e, net).log, EventTrace(s, e, net))
  {
    var p, calls := PlanOf(s, e, net), SentAtOnce(EventCalls(s, e, net));
    StepIsPlan(s, e, net);
    SameCallsMade(s, e, net);
    FirstHolds(s, e, net);
    ReceiveAnswer(s, e.packet, e.app, net);
    CarryTrace(p, net);
    AddsTrans(s.log, p.first.log, Carry(p, net).log, Answer(s, e.packet, net), calls + EndTrace(p, net));
    ReceiveParts(s, e, net);
  }

  lemma ReceiveParts(s: Session, e: Event, net: Network)
    requires e.Receive?
    ensures EventTrace(s, e, net) ==
            Answer(s, e.packet, net) + (SentAtOnce(EventCalls(s, e, net)) + EndTrace(PlanOf(s, e, net), net))
  {
    SameEnd(s, e, net);
    var a, b, c := Answer(s, e.packet, net), SentAtOnce(EventCalls(s, e, net)), EndTrace(PlanOf(s, e, net), net);
    assert a + (b + c) == a + b + c;
  }

  /** Exactly what one event makes the library send, PUBLISH above QoS 0 apart, and tell. */
  lemma StepTrace(s: Session, e: Event, net: Network)
    requires MidFits(s)
    ensures Trace(Step(s, e, net).log) == Trace(s.log) + EventTrace(s, e, net)
  {
    match e
    case AppPublish(req) => PublishTrace(s, req, net);
    case Receive(p, _) =>
      AddsNone(s.log);
      if s.sock {
        ReceiveTrace(s, e, net);
      } else {
        assert EventTrace(s, e, net) == [];
      }
    case SocketLost => AddsNone(s.log);
    case Reconnect(refused) =>
      AddsNone(s.log);
      AddsOne(s.log, Sent(Connect, net(s.sends)));
    case AppDisconnect =>
      AddsNone(s.log);
      AddsOne(s.log, Sent(Disconnect, net(s.sends)));
  }

  function RunEvents(s: Session, events: seq<Event>, net: Network): seq<Output>
    decreases |events|
  {
    if events == [] then []
    else EventTrace(s, events[0], net) + RunEvents(Step(s, events[0], net), events[1..], net)
  }

  /** The same over whole runs, whatever the broker sends and whichever sends fail. */
  lemma {:induction false} RunTrace(s: Session, events: seq<Event>, net: Network)
    requires MidFits(s)
    ensures Trace(Run(s, events, net).log) == Trace(s.log) + RunEvents(s, events, net)
    decreases |events|
  {
    if events == [] {
      AddsNone(s.log);
    } else {
      var t := Step(s, events[0], net);
      StepTrace(s, events[0], net);
      StepHolds(s, events[0], net);
      RunTrace(t, events[1..], net);
      AddsTrans(s.log, t.log, Run(t, events[1..], net).log,
                EventTrace(s, events[0], net), RunEvents(t, events[1..], net));
    }
  }

  // ---------- messages of QoS 0 and 1 ----------

  datatype Heard = Heard(qos: int, mid: nat, body: string)

  function HeardIn(o: Output): seq<Heard> {
    if o.OnMessage? && o.msg.qos <= 1 then [Heard(o.msg.qos, o.msg.mid, o.msg.body)] else []
  }

  /** The messages of QoS 0 and 1 handed to the application, in order. */
  function HeardOf(log: seq<Output>): seq<Heard> {
    if log == [] then [] else HeardOf(log[..|log| - 1]) + HeardIn(log[|log| - 1])
  }

  lemma {:induction false} HeardAppend(a: seq<Output>, b: seq<Output>)
    ensures HeardOf(a + b) == HeardOf(a) + HeardOf(b)
    decreases |b|
  {
    if b == [] {
      assert a + b == a;
    } else {
      var n := |b| - 1;
      assert (a + b)[..|a + b| - 1] == a + b[..n];
      HeardAppend(a, b[..n]);
      assert HeardOf(a) + (HeardOf(b[..n]) + HeardIn(b[n])) == HeardOf(a) + HeardOf(b[..n]) + HeardIn(b[n]);
    }
  }

  lemma {:induction false} HeardInTrace(log: seq<Output>)
    ensures HeardOf(Trace(log)) == HeardOf(log)
    decreases |log|
  {
    if log != [] {
      var n := |log| - 1;
      var o := log[n];
      HeardInTrace(log[..n]);
      HeardAppend(Trace(log[..n]), Shown(o));
      if Shown(o) != [] {
        assert Shown(o)[..0] == [] && HeardOf(Shown(o)) == [] + HeardIn(Shown(o)[0]);
      }
    }
  }

  lemma {:induction false} SendsUnheard(log: seq<Output>)
    requires forall k :: 0 <= k < |log| ==> log[k].Sent?
    ensures HeardOf(log) == []
    decreases |log|
  {
    if log != [] {
      SendsUnheard(log[..|log| - 1]);
    }
  }

  lemma {:induction false} AtOnceSends(calls: seq<Call>)
    ensures forall k :: 0 <= k < |SentAtOnce(calls)| ==> SentAtOnce(calls)[k].Sent?
    decreases |calls|
  {
    if calls != [] {
      AtOnceSends(calls[1..]);
    }
  }

  lemma {:induction false} RetrySends(q: seq<Message>, sock: bool, sends: nat, net: Network)
    ensures forall k :: 0 <= k < |RetryOutputs(q, sock, sends, net)| ==> RetryOutputs(q, sock, sends, net)[k].Sent?
    decreases |q|
  {
    if q != [] {
      RetrySends(q[1..], sock, sends, net);
      RetrySends(q[1..], sock, sends + 1, net);
    }
  }

  /** The message that an event brings at QoS 0 or 1, unless it is refused. */
  function Brought(s: Session, e: Event): seq<Heard> {
    if e.Receive? && e.packet.RecvPublish? && Accepts(s, e.packet) && e.packet.qos <= 1 then
      [Heard(e.packet.qos, if e.packet.qos == 0 then 0 else e.packet.mid, e.packet.body)]
    else []
  }

  /** The incoming queue holds QoS 2 messages only. */
  predicate OnlyQos2(s: Session) {
    forall i :: 0 <= i < |s.inq| ==> s.inq[i].qos == 2
  }

  lemma HeardOne(o: Output)
    ensures HeardOf([o]) == HeardIn(o)
  {
    assert [o][..0] == [];
    assert [] + HeardIn(o) == HeardIn(o);
  }

  lemma HeardTwo(a: Output, b: Output)
    ensures HeardOf([a, b]) == HeardIn(a) + HeardIn(b)
  {
    assert [a, b] == [a] + [b];
    HeardAppend([a], [b]);
    HeardOne(a);
    HeardOne(b);
  }

  lemma AnswerHeard(s: Session, e: Event, net: Network)
    requires OnlyQos2(s) && e.Receive?
    ensures HeardOf(Answer(s, e.packet, net)) == Brought(s, e)
  {
    var a := Answer(s, e.packet, net);
    if a == [] {
    } else if |a| == 1 {
      assert a == [a[0]];
      HeardOne(a[0]);
      assert HeardIn(a[0]) == Brought(s, e);
    } else {
      assert a == [a[0], a[1]];
      HeardTwo(a[0], a[1]);
      assert HeardIn(a[0]) == [] && HeardIn(a[1]) == Brought(s, e);
      assert [] + Brought(s, e) == Brought(s, e);
    }
  }

  lemma EventHeard(s: Session, e: Event, net: Network)
    requires OnlyQos2(s)
    ensures HeardOf(EventTrace(s, e, net)) == Brought(s, e)
  {
    var calls := SentAtOnce(EventCalls(s, e, net));
    AtOnceSends(EventCalls(s, e, net));
    SendsUnheard(calls);
    if e.Receive? {
      var a := Answer(s, e.packet, net);
      AnswerHeard(s, e, net);
      HeardAppend(a, calls);
      assert Brought(s, e) + [] == Brought(s, e);
      assert a + calls + [] == a + calls;
      if Accepted(s, e) {
        var u := BeforeRetry(s, e, net);
        var r := RetryOutputs(u.outq, u.sock, u.sends, net);
        RetrySends(u.outq, u.sock, u.sends, net);
        SendsUnheard(r);
        HeardInTrace(r);
        HeardAppend(a + calls, Trace(r));
      }
    } else if e.Reconnect? {
      SendsUnheard(EventTrace(s, e, net));
    } else if e.AppDisconnect? {
      SendsUnheard(EventTrace(s, e, net));
    }
  }

  function RunBrought(s: Session, events: seq<Event>, net: Network): seq<Heard>
    decreases |events|
  {
    if events == [] then [] else Brought(s, events[0]) + RunBrought(Step(s, events[0], net), events[1..], net)
  }

  lemma StepHeard(s: Session, e: Event, net: Network)
    requires MidFits(s) && OnlyQos2(s)
    ensures HeardOf(Step(s, e, net).log) == HeardOf(s.log) + Brought(s, e)
  {
    var t := Step(s, e, net);
    StepTrace(s, e, net);
    HeardInTrace(s.log);
    HeardInTrace(t.log);
    HeardAppend(Trace(s.log), EventTrace(s, e, net));
    EventHeard(s, e, net);
  }

  /** Messages of QoS 0 and 1 over every run: the application is handed exactly those that were not
    refused, each once, in the order in which they came, with the identifier and payload of the
    packet, whether or not the acknowledgement could be sent. */
  lemma {:induction false} RunHeard(s: Session, events: seq<Event>, net: Network)
    requires MidFits(s) && R.Counted(s)
    ensures HeardOf(Run(s, events, net).log) == HeardOf(s.log) + RunBrought(s, events, net)
    decreases |events|
  {
    if events == [] {
      assert HeardOf(s.log) + [] == HeardOf(s.log);
    } else {
      var t := Step(s, events[0], net);
      StepHeard(s, events[0], net);
      StepHolds(s, events[0], net);
      StillCounted(s, events[0], net);
      RunHeard(t, events[1..], net);
      HeardTrans(HeardOf(s.log), Brought(s, events[0]), RunBrought(t, events[1..], net));
    }
  }

  lemma StillCounted(s: Session, e: Event, net: Network)
    requires R.Counted(s)
    ensures R.Counted(Step(s, e, net)) && OnlyQos2(s)
  {
    R.StepConserves(s, e, net);
  }

  lemma HeardTrans(a: seq<Heard>, b: seq<Heard>, c: seq<Heard>)
    ensures a + b + c == a + (b + c)
  {
  }

  // ---------- results ----------

  lemma LogGrows(p: Plan, net: Network)
    ensures p.first.log <= Carry(p, net).log
  {
    RunAppGrows(p.first, p.app, net);
  }

  lemma {:induction false} RunAppGrows(s: Session, app: seq<Request>, net: Network)
    ensures s.log <= RunApp(s, app, net).log
    decreases |app|
  {
    if app != [] {
      RunAppGrows(PublishStep(s, app[0], net).s, app[1..], net);
    }
  }

  lemma {:induction false} AnswerFirst(s: Session, p: Received, app: seq<Request>, net: Network)
    requires s.sock && Answer(s, p, net) != [] && Answer(s, p, net)[0].Sent?
    ensures var f := ReceivePlan(s, p, app, net).first.log;
            |s.log| < |f| && f[|s.log|] == Sent(Answer(s, p, net)[0].packet, net(s.sends))
  {
  }

  /** An answer is attempted at once, and succeeds as the network says. */
  lemma {:induction false} AnswerAttempted(s: Session, p: Received, app: seq<Request>, net: Network)
    requires s.sock && Answer(s, p, net) != [] && Answer(s, p, net)[0].Sent?
    ensures var t := Step(s, Receive(p, app), net).log;
            |s.log| < |t| && t[|s.log|] == Sent(Answer(s, p, net)[0].packet, net(s.sends))
  {
    StepIsPlan(s, Receive(p, app), net);
    LogGrows(ReceivePlan(s, p, app, net), net);
    AnswerFirst(s, p, app, net);
  }

  // ---------- the connection ----------

  predicate AckFails(s: Session, a: Ack, qos: int) {
    || s.cs != Active || a.BadHeader? || (a.BadBody? && a.rc != Success)
    || (a.Ack? && (a.mid == 0 || (FirstMid(s.outq, a.mid) < |s.outq| && !Finds(s.outq, a.mid, qos))))
  }

  /** The packets that end the connection. */
  predicate Fails(s: Session, p: Received, net: Network) {
    match p
    case RecvPuback(a) => AckFails(s, a, 1)
    case RecvPubcomp(a) => AckFails(s, a, 2)
    case RecvPubrec(a) =>
      || s.cs != Active || a.BadHeader? || (a.BadBody? && a.rc != Success) || (a.Ack? && a.mid == 0)
      || (a.Ack? && !(a.reason >= 128 && s.protocol == Mqtt5) &&
            ((FirstMid(s.outq, a.mid) < |s.outq| && !Finds(s.outq, a.mid, 2)) || !net(s.sends)))
    case RecvPubrel(a) =>
      || s.cs != Active || a.BadHeader? || (a.BadBody? && a.rc != Success)
      || (a.Ack? && (a.mid == 0 || (FirstMid(s.inq, a.mid) < |s.inq| && !Finds(s.inq, a.mid, 2)) || !net(s.sends)))
    case RecvPublish(_, qos, _, _) => !Accepts(s, p) || (qos > 0 && !net(s.sends))
    case RecvConnack(bad, code, _) => bad || code != 0
  }

  predicate OpenAfter(s: Session, e: Event, net: Network) {
    match e
    case AppPublish(_) => s.sock
    case Receive(p, _) => s.sock && !Fails(s, p, net)
    case SocketLost => false
    case Reconnect(refused) => !refused && net(s.sends)
    case AppDisconnect => s.sock
  }

  function StateAfter(s: Session, e: Event, net: Network): ClientState {
    match e
    case Reconnect(refused) => if refused then ConnectPending else if net(s.sends) then Connected else New
    case AppDisconnect => Disconnected
    case Receive(_, _) => if Accepted(s, e) && s.cs != Disconnecting then Active else s.cs
    case _ => s.cs
  }

  lemma {:induction false} RunAppStays(s: Session, app: seq<Request>, net: Network)
    ensures RunApp(s, app, net).sock == s.sock && RunApp(s, app, net).cs == s.cs
    decreases |app|
  {
    if app != [] {
      RunAppStays(PublishStep(s, app[0], net).s, app[1..], net);
    }
  }

  lemma PlanCloses(s: Session, p: Received, app: seq<Request>, net: Network)
    requires s.sock
    ensures var plan := ReceivePlan(s, p, app, net);
            (plan.closes <==> Fails(s, p, net)) && plan.first.sock && plan.first.cs == s.cs
  {
  }

  /** Exactly which events leave the socket open, and the state of the client after each. */
  lemma StepConnection(s: Session, e: Event, net: Network)
    ensures var t := Step(s, e, net);
            (t.sock <==> OpenAfter(s, e, net)) && t.cs == StateAfter(s, e, net)
  {
    var p := PlanOf(s, e, net);
    StepIsPlan(s, e, net);
    RunAppStays(p.first, p.app, net);
    RetriesIfAccepted(s, e, net);
    if e.Receive? && s.sock {
      PlanCloses(s, e.packet, e.app, net);
    }
  }

  // ---------- what a call returns ----------

  /** The error code of a packet that ends the connection. */
  function ErrorOf(s: Session, p: Received, net: Network): Rc {
    if p.RecvConnack? then
      if p.bad then Malformed else if 1 <= p.code <= 5 then ConnRefused else Protocol
    else if s.cs != Active then Protocol
    else if p.RecvPublish? then
      if p.bad then Malformed else if Accepts(s, p) then SendFailed else Protocol
    else
      var a := if p.RecvPubrel? then p.ack else AckOf(p);
      match a
      case BadHeader => Malformed
      case BadBody(rc) => rc
      case Ack(mid, _) =>
        var answered := p.RecvPubrel? ||
          (p.RecvPubrec? && !Rejects(s, a) && (FirstMid(s.outq, mid) == |s.outq| || Finds(s.outq, mid, 2)));
        if answered && mid != 0 && !net(s.sends) then SendFailed else Protocol
  }

  /** Exactly what each handler returns. */
  lemma HandlerResult(s: Session, p: Received, app: seq<Request>, net: Network)
    requires s.sock
    ensures HandleStep(s, p, app, net).rc == if Fails(s, p, net) then ErrorOf(s, p, net) else Success
  {
  }

  /** And `mosquitto_disconnect`, which sends DISCONNECT exactly if there is a socket. */
  lemma DisconnectResult(s: Session, net: Network)
    ensures var r := DisconnectStep(s, net);
            && r.rc == (if !s.sock then NoConn else if net(s.sends) then Success else SendFailed)
            && r.s.cs == Disconnected
            && r.s.log == s.log + if s.sock then [Sent(Disconnect, net(s.sends))] else []
  {
  }

  predicate AllOk(log: seq<Output>) {
    forall k :: 0 <= k < |log| ==> log[k].Sent? && log[k].ok
  }

  lemma {:induction false} ReleaseResult(q: seq<Message>, quota: int, sock: bool, sends: nat, net: Network)
    ensures var r := ReleaseQueue(q, quota, sock, sends, net);
            && (r.rc == Success <==> AllOk(r.log))
            && (r.rc != Success ==> r.rc == if sock then SendFailed else NoConn)
    decreases |q|
  {
    if q != [] && quota > 0 {
      if q[0].qos > 0 && q[0].state == Invalid {
        var r := ReleaseQueue(q, quota, sock, sends, net);
        if sock && net(sends) {
          var rest := ReleaseQueue(q[1..], Decrement(quota), sock, sends + 1, net);
          ReleaseResult(q[1..], Decrement(quota), sock, sends + 1, net);
          assert r.log[1..] == rest.log;
          assert forall k :: 0 <= k < |rest.log| ==> r.log[k + 1] == rest.log[k];
        } else {
          assert !r.log[0].ok;
        }
      } else {
        ReleaseResult(q[1..], quota, sock, sends, net);
      }
    }
  }

  /** A publish call changes nothing if its quality of service is illegal; else it reports success
    exactly if everything that it sent was taken by the network. */
  lemma PublishResult(s: Session, req: Request, net: Network)
    ensures var r := PublishStep(s, req, net);
            && (req.qos < 0 || req.qos > 2 ==> r.s == s && r.rc == Inval)
            && (0 <= req.qos <= 2 ==>
                  && s.log <= r.s.log
                  && (r.rc == Success <==> AllOk(r.s.log[|s.log|..]))
                  && (r.rc != Success ==> r.rc == if s.sock then SendFailed else NoConn))
  {
    var r := PublishStep(s, req, net);
    if req.qos == 0 {
      assert r.s.log[|s.log|..] == [r.s.log[|s.log|]];
    } else if 0 < req.qos <= 2 {
      var q := s.outq + [Message(s.nextId, NextMid(s.lastMid), req.qos, Invalid, false, req.body)];
      ReleaseResult(q, s.outQuota, s.sock, s.sends, net);
      assert r.s.log[|s.log|..] == ReleaseQueue(q, s.outQuota, s.sock, s.sends, net).log;
    }
  }
}
