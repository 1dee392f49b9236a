/** The receiving side: what becomes of accepted QoS 2 messages, and the receive quota. */
module Receive {
  import opened Common
  import opened MessageFlow

  /** The QoS 2 messages handed to the application. */
  function Delivered(log: seq<Output>): multiset<Message> {
    if log == [] then multiset{}
    else
      var o := log[|log| - 1];
      Delivered(log[..|log| - 1]) + (if o.OnMessage? && o.msg.qos == 2 then multiset{o.msg} else multiset{})
  }

  /** The messages freed without being delivered. */
  function Lost(log: seq<Output>): multiset<Message> {
    if log == [] then multiset{}
    else
      var o := log[|log| - 1];
      Lost(log[..|log| - 1]) + (if o.Dropped? then multiset{o.msg} else multiset{})
  }

  /** The QoS 2 message that one event adds to the incoming queue, if any. */
  function AcceptedBy(s: Session, e: Event): multiset<Message> {
    if e.Receive? && e.packet.RecvPublish? && e.packet.qos == 2 && !e.packet.bad && e.packet.mid != 0
       && s.sock && s.cs == Active && !(s.protocol == Mqtt5 && s.inQuota == 0)
    then multiset{Message(s.nextId, e.packet.mid, 2, WaitForPubrel, false, e.packet.body)}
    else multiset{}
  }

  function Accepted(s: Session, events: seq<Event>, net: Network): multiset<Message>
    decreases |events|
  {
    if events == [] then multiset{}
    else AcceptedBy(s, events[0]) + Accepted(Step(s, events[0], net), events[1..], net)
  }

  /** Every accepted message that is still around, or was delivered or dropped. */
  function Accounted(s: Session): multiset<Message> {
    multiset(s.inq) + Delivered(s.log) + Lost(s.log)
  }

  predicate Qos2Only(q: seq<Message>) {
    forall i :: 0 <= i < |q| ==> q[i].qos == 2 && q[i].state == WaitForPubrel
  }

  /** In every reachable session: both `queue_len` counters equal the queue lengths, the incoming
    queue holds QoS 2 messages only, and the receive quota is at least what the queue leaves. */
  predicate Counted(s: Session) {
    && s.outLen == |s.outq|
    && s.inLen == |s.inq|
    && Qos2Only(s.inq)
    && 0 <= s.inQuota <= s.inMax
    && s.inQuota >= s.inMax - |s.inq|
  }

  /** The step changed nothing on the receiving side, and counts outgoing messages correctly. */
  predicate Untouched(s: Session, t: Session) {
    && t.inq == s.inq && t.inLen == s.inLen && t.inQuota == s.inQuota && t.inMax == s.inMax
    && Delivered(t.log) == Delivered(s.log)
    && Lost(t.log) == Lost(s.log)
    && (s.outLen == |s.outq| ==> t.outLen == |t.outq|)
    && t.nextId >= s.nextId
  }

  lemma {:induction false} LogAppend(log: seq<Output>, extra: seq<Output>)
    ensures Delivered(log + extra) == Delivered(log) + Delivered(extra)
    ensures Lost(log + extra) == Lost(log) + Lost(extra)
    decreases |extra|
  {
    if extra == [] {
      assert log + extra == log;
    } else {
      var n := |extra| - 1;
      assert (log + extra)[..|log + extra| - 1] == log + extra[..n];
      LogAppend(log, extra[..n]);
    }
  }

  lemma LogAppendOne(log: seq<Output>, o: Output)
    ensures Delivered(log + [o]) ==
            Delivered(log) + (if o.OnMessage? && o.msg.qos == 2 then multiset{o.msg} else multiset{})
    ensures Lost(log + [o]) == Lost(log) + (if o.Dropped? then multiset{o.msg} else multiset{})
  {
    assert (log + [o])[..|log|] == log;
  }

  lemma {:induction false} SendsOnly(log: seq<Output>)
    requires forall k :: 0 <= k < |log| ==> log[k].Sent?
    ensures Delivered(log) == multiset{} && Lost(log) == multiset{}
    decreases |log|
  {
    if log != [] {
      SendsOnly(log[..|log| - 1]);
    }
  }

  lemma {:induction false} ReleaseSendsOnly(q: seq<Message>, quota: int, sock: bool, sends: nat, net: Network)
    ensures forall k :: 0 <= k < |ReleaseQueue(q, quota, sock, sends, net).log| ==>
              ReleaseQueue(q, quota, sock, sends, net).log[k].Sent?
    decreases |q|
  {
    if q != [] && quota > 0 {
      if q[0].qos > 0 && q[0].state == Invalid {
        if sock && net(sends) {
          ReleaseSendsOnly(q[1..], Decrement(quota), sock, sends + 1, net);
        }
      } else {
        ReleaseSendsOnly(q[1..], quota, sock, sends, net);
      }
    }
  }

  lemma {:induction false} RetrySendsOnly(q: seq<Message>, sock: bool, sends: nat, net: Network)
    ensures forall k :: 0 <= k < |RetryQueue(q, sock, sends, net).log| ==> RetryQueue(q, sock, sends, net).log[k].Sent?
    decreases |q|
  {
    if q != [] {
      RetrySendsOnly(q[1..], sock, if RetryPacket(q[0]).None? then sends else sends + 1, net);
    }
  }

  lemma ReleaseUntouched(s: Session, net: Network)
    ensures Untouched(s, Release(s, net).s)
  {
    var r := ReleaseQueue(s.outq, s.outQuota, s.sock, s.sends, net);
    ReleaseSendsOnly(s.outq, s.outQuota, s.sock, s.sends, net);
    SendsOnly(r.log);
    LogAppend(s.log, r.log);
  }

  lemma RetryUntouched(s: Session, net: Network)
    ensures Untouched(s, Retry(s, net))
  {
    var r := RetryQueue(s.outq, s.sock, s.sends, net);
    RetrySendsOnly(s.outq, s.sock, s.sends, net);
    SendsOnly(r.log);
    LogAppend(s.log, r.log);
  }

  lemma SendUntouched(s: Session, p: Packet, net: Network)
    ensures Untouched(s, Send(s, p, net).s)
  {
    LogAppendOne(s.log, Sent(p, s.sock && net(s.sends)));
  }

  lemma PublishUntouched(s: Session, req: Request, net: Network)
    ensures Untouched(s, PublishStep(s, req, net).s)
  {
    if 0 <= req.qos <= 2 {
      var mid := NextMid(s.lastMid);
      var m := Message(s.nextId, mid, req.qos, Invalid, false, req.body);
      var s1 := s.(lastMid := mid, nextId := s.nextId + 1);
      if req.qos == 0 {
        SendUntouched(s1, ToPacket(m), net);
      } else {
        ReleaseUntouched(s1.(outq := s1.outq + [m], outLen := s1.outLen + 1), net);
      }
    }
  }

  lemma {:induction false} RunAppUntouched(s: Session, app: seq<Request>, net: Network)
    ensures Untouched(s, RunApp(s, app, net))
    decreases |app|
  {
    if app != [] {
      PublishUntouched(s, app[0], net);
      RunAppUntouched(PublishStep(s, app[0], net).s, app[1..], net);
    }
  }

  /** A callback that is not the delivery of a QoS 2 message, and what is published from it. */
  lemma CallbackUntouched(s: Session, o: Output, app: seq<Request>, net: Network)
    requires !o.Dropped? && !(o.OnMessage? && o.msg.qos == 2)
    ensures Untouched(s, RunApp(s.(log := s.log + [o]), app, net))
  {
    LogAppendOne(s.log, o);
    RunAppUntouched(s.(log := s.log + [o]), app, net);
  }

  // ---------- the outgoing handlers ----------

  lemma RemoveOutUntouched(s: Session, mid: nat, qos: int)
    ensures Untouched(s, RemoveOut(s, mid, qos).s)
  {
  }

  lemma UntouchedTrans(s: Session, t: Session, u: Session)
    requires Untouched(s, t) && Untouched(t, u)
    ensures Untouched(s, u)
  {
  }

  lemma ThenRelease(s: Session, t: Session, net: Network)
    requires Untouched(s, t)
    ensures Untouched(s, Release(t, net).s)
  {
    ReleaseUntouched(t, net);
    UntouchedTrans(s, t, Release(t, net).s);
  }

  /** The session after `on_publish`. */
  function Notified(d: Session, mid: nat, app: seq<Request>, net: Network): Session {
    RunApp(d.(log := d.log + [OnPublish(mid)]), app, net)
  }

  lemma ThenNotify(s: Session, d: Session, mid: nat, app: seq<Request>, net: Network)
    requires Untouched(s, d)
    ensures Untouched(s, Notified(d, mid, app, net))
  {
    CallbackUntouched(d, OnPublish(mid), app, net);
    UntouchedTrans(s, d, Notified(d, mid, app, net));
  }

  lemma RemoveAfter(s: Session, u: Session, mid: nat, qos: int)
    requires Untouched(s, u)
    ensures Untouched(s, RemoveOut(u, mid, qos).s)
  {
    RemoveOutUntouched(u, mid, qos);
    UntouchedTrans(s, u, RemoveOut(u, mid, qos).s);
  }

  lemma AckUntouched(s: Session, a: Ack, qos: int, app: seq<Request>, net: Network)
    ensures Untouched(s, PubackcompStep(s, a, qos, app, net).s)
  {
    var u := s.(outQuota := Increment(s.outQuota, s.outMax));
    assert Untouched(s, u);
    if s.cs == Active && a.Ack? && a.mid != 0 {
      var d := RemoveOut(u, a.mid, qos);
      RemoveAfter(s, u, a.mid, qos);
      if d.rc == Success {
        ThenNotify(s, d.s, a.mid, app, net);
        ThenRelease(s, Notified(d.s, a.mid, app, net), net);
      } else if d.rc == NotFound {
        ThenRelease(s, d.s, net);
      }
    }
  }

  lemma PubrecFailureUntouched(s: Session, mid: nat, app: seq<Request>, net: Network)
    ensures var d := RemoveOut(s, mid, 2);
            var t := if d.rc == Success then Notified(d.s, mid, app, net) else d.s;
            Untouched(s, Release(t.(outQuota := Increment(t.outQuota, t.outMax)), net).s)
  {
    var d := RemoveOut(s, mid, 2);
    RemoveOutUntouched(s, mid, 2);
    ThenNotify(s, d.s, mid, app, net);
    var t := if d.rc == Success then Notified(d.s, mid, app, net) else d.s;
    ThenRelease(s, t.(outQuota := Increment(t.outQuota, t.outMax)), net);
  }

  lemma PubrecSuccessUntouched(s: Session, mid: nat, net: Network)
    ensures var u := UpdateOut(s, mid, WaitForPubcomp, 2);
            Untouched(s, u.s) && Untouched(s, Send(u.s, Pubrel(mid), net).s)
  {
    var u := UpdateOut(s, mid, WaitForPubcomp, 2);
    SendUntouched(u.s, Pubrel(mid), net);
    UntouchedTrans(s, u.s, Send(u.s, Pubrel(mid), net).s);
  }

  lemma PubrecUntouched(s: Session, a: Ack, app: seq<Request>, net: Network)
    ensures Untouched(s, PubrecStep(s, a, app, net).s)
  {
    if s.cs == Active && a.Ack? && a.mid != 0 {
      if a.reason < 0x80 || s.protocol != Mqtt5 {
        PubrecSuccessUntouched(s, a.mid, net);
      } else {
        PubrecFailureUntouched(s, a.mid, app, net);
      }
    }
  }

  // ---------- the incoming handlers ----------

  /** The step accounts for exactly the message accepted, and keeps the counters. */
  predicate Conserves(s: Session, t: Session, accepted: multiset<Message>) {
    && Accounted(t) == Accounted(s) + accepted
    && (Counted(s) ==> Counted(t))
    && t.nextId >= s.nextId
  }

  lemma UntouchedConserves(s: Session, t: Session)
    requires Untouched(s, t)
    ensures Conserves(s, t, multiset{})
  {
  }

  lemma ConservesTrans(s: Session, t: Session, u: Session, accepted: multiset<Message>)
    requires Conserves(s, t, accepted) && Untouched(t, u)
    ensures Conserves(s, u, accepted)
  {
  }

  lemma AcceptQos1Untouched(s: Session, m: Message, app: seq<Request>, net: Network)
    requires m.qos == 1
    ensures Untouched(s.(inQuota := Increment(Decrement(s.inQuota), s.inMax)), AcceptStep(s, m, app, net).s)
  {
    var s1 := s.(inQuota := Increment(Decrement(s.inQuota), s.inMax));
    var r := Send(s1, Puback(m.mid), net).s;
    SendUntouched(s1, Puback(m.mid), net);
    CallbackUntouched(r, OnMessage(m), app, net);
    UntouchedTrans(s1, r, AcceptStep(s, m, app, net).s);
  }

  lemma AcceptQos2Conserves(s: Session, m: Message, app: seq<Request>, net: Network)
    requires m.qos == 2
    ensures Conserves(s, AcceptStep(s, m, app, net).s, multiset{m.(state := WaitForPubrel)})
  {
    var s1 := s.(inQuota := Decrement(s.inQuota));
    var r := Send(s1, Pubrec(m.mid), net).s;
    SendUntouched(s1, Pubrec(m.mid), net);
    var m1 := m.(state := WaitForPubrel);
    assert AcceptStep(s, m, app, net).s == QueueIn(r, m1);
    assert multiset(r.inq + [m1]) == multiset(s.inq) + multiset{m1};
  }

  lemma AcceptConserves(s: Session, m: Message, app: seq<Request>, net: Network)
    ensures var t := AcceptStep(s, m, app, net).s;
            Conserves(s, t, if m.qos == 2 then multiset{m.(state := WaitForPubrel)} else multiset{})
  {
    if m.qos == 0 {
      CallbackUntouched(s, OnMessage(m), app, net);
    } else if m.qos == 1 {
      AcceptQos1Untouched(s, m, app, net);
    } else if m.qos == 2 {
      AcceptQos2Conserves(s, m, app, net);
    }
  }

  lemma RemoveOne(q: seq<Message>, i: nat)
    requires i < |q|
    ensures multiset(q) == multiset(RemoveAt(q, i)) + multiset{q[i]}
    ensures Qos2Only(q) ==> Qos2Only(RemoveAt(q, i))
  {
    assert q == q[..i] + [q[i]] + q[i + 1..];
  }

  /** The message at position i leaves the queue with this entry in the log. */
  function Taken(r: Session, i: nat, o: Output): Session
    requires i < |r.inq|
  {
    r.(inq := RemoveAt(r.inq, i), inLen := r.inLen - 1, log := r.log + [o])
  }

  /** The PUBCOMP has been sent: taking the message out of the queue balances the callback
    that delivers it, or the entry that records its loss. */
  lemma {:induction false} TakeConserves(s: Session, r: Session, i: nat, o: Output)
    requires i < |s.inq| && s.inq[i].qos == 2
    requires Untouched(s.(inQuota := Increment(s.inQuota, s.inMax)), r)
    requires o == OnMessage(s.inq[i]) || o == Dropped(s.inq[i])
    ensures Conserves(s, Taken(r, i, o), multiset{})
  {
    RemoveOne(s.inq, i);
    LogAppendOne(r.log, o);
  }

  lemma {:induction false} DeliverConserves(s: Session, r: Session, i: nat, app: seq<Request>, net: Network)
    requires i < |s.inq| && s.inq[i].qos == 2
    requires Untouched(s.(inQuota := Increment(s.inQuota, s.inMax)), r)
    ensures Conserves(s, RunApp(Taken(r, i, OnMessage(s.inq[i])), app, net), multiset{})
  {
    var t := Taken(r, i, OnMessage(s.inq[i]));
    TakeConserves(s, r, i, OnMessage(s.inq[i]));
    RunAppUntouched(t, app, net);
    ConservesTrans(s, t, RunApp(t, app, net), multiset{});
  }

  lemma AnswerConserves(s: Session, r: Session)
    requires Untouched(s.(inQuota := Increment(s.inQuota, s.inMax)), r)
    ensures Conserves(s, r, multiset{})
  {
  }

  /** What `handle__pubrel` does with a well-formed PUBREL, by cases. */
  lemma PubrelResult(s: Session, mid: nat, app: seq<Request>, net: Network)
    requires s.cs == Active && mid != 0 && Qos2Only(s.inq)
    ensures var r := Send(s.(inQuota := Increment(s.inQuota, s.inMax)), Pubcomp(mid), net);
            var i := FirstMid(s.inq, mid);
            && r.s.inq == s.inq
            && PubrelStep(s, Ack(mid, 0), app, net).s ==
                 if i == |s.inq| then r.s
                 else if r.rc == Success then RunApp(Taken(r.s, i, OnMessage(s.inq[i])), app, net)
                 else Taken(r.s, i, Dropped(s.inq[i]))
  {
  }

  lemma PubrelConserves(s: Session, a: Ack, app: seq<Request>, net: Network)
    requires Qos2Only(s.inq)
    ensures Conserves(s, PubrelStep(s, a, app, net).s, multiset{})
  {
    var t := PubrelStep(s, a, app, net).s;
    if s.cs == Active && a.Ack? && a.mid != 0 {
      var s1 := s.(inQuota := Increment(s.inQuota, s.inMax));
      var r := Send(s1, Pubcomp(a.mid), net);
      assert t == PubrelStep(s, Ack(a.mid, 0), app, net).s;
      PubrelResult(s, a.mid, app, net);
      SendUntouched(s1, Pubcomp(a.mid), net);
      var i := FirstMid(s.inq, a.mid);
      if i == |s.inq| {
        AnswerConserves(s, r.s);
      } else if r.rc == Success {
        DeliverConserves(s, r.s, i, app, net);
      } else {
        TakeConserves(s, r.s, i, Dropped(s.inq[i]));
      }
    } else {
      assert t == s;
      UntouchedConserves(s, s);
    }
  }

  /** A PUBREL whose mid is not queued delivers nothing and drops nothing, and is answered. */
  lemma PubrelAbsent(s: Session, a: Ack, app: seq<Request>, net: Network)
    requires a.Ack? && FirstMid(s.inq, a.mid) == |s.inq|
    ensures var t := PubrelStep(s, a, app, net).s;
            t.inq == s.inq && Delivered(t.log) == Delivered(s.log) && Lost(t.log) == Lost(s.log)
    ensures var r := PubrelStep(s, a, app, net);
            s.cs == Active && a.mid != 0 ==> r.s.log == s.log + [Sent(Pubcomp(a.mid), r.rc == Success)]
  {
    SendUntouched(s.(inQuota := Increment(s.inQuota, s.inMax)), Pubcomp(a.mid), net);
  }

  lemma {:induction false} ResetInKeepsQos2(q: seq<Message>, quota: nat)
    requires Qos2Only(q)
    ensures ResetInQueue(q, quota).q == q
    ensures ResetInQueue(q, quota).quota == if |q| <= quota then quota - |q| else 0
    decreases |q|
  {
    if q != [] {
      assert q == [q[0]] + q[1..];
      ResetInKeepsQos2(q[1..], Decrement(quota));
    }
  }

  lemma ResetConserves(s: Session, quotaOnly: bool)
    requires Qos2Only(s.inq)
    ensures Conserves(s, Reset(s, quotaOnly), multiset{})
  {
    ResetInKeepsQos2(s.inq, s.inMax);
  }

  lemma ConnackConserves(s: Session, code: nat, rmax: Option<nat>, app: seq<Request>, net: Network)
    requires Qos2Only(s.inq)
    ensures Conserves(s, ConnackStep(s, false, code, rmax, app, net).s, multiset{})
  {
    var s1 := if rmax.Some? then s.(outMax := rmax.value) else s;
    var s2 := Reset(s1, true);
    ResetConserves(s1, true);
    var s3 := RunApp(s2, app, net);
    RunAppUntouched(s2, app, net);
    ConservesTrans(s, s2, s3, multiset{});
    var s4 := if s3.cs == Disconnecting then s3 else s3.(cs := Active);
    RetryUntouched(s4, net);
    ConservesTrans(s, s4, Retry(s4, net), multiset{});
  }

  /** The checks `handle__publish` makes before the switch on the quality of service. */
  predicate Refused(s: Session, p: Received)
    requires p.RecvPublish?
  {
    s.cs != Active || p.bad || (p.qos > 0 && ((s.protocol == Mqtt5 && s.inQuota == 0) || p.mid == 0))
  }

  lemma FreshIdConserves(s: Session, t: Session, accepted: multiset<Message>)
    requires Conserves(s.(nextId := s.nextId + 1), t, accepted)
    ensures Conserves(s, t, accepted)
  {
  }

  lemma PublishConserves(s: Session, p: Received, app: seq<Request>, net: Network)
    requires p.RecvPublish? && s.sock
    ensures Conserves(s, HandleStep(s, p, app, net).s, AcceptedBy(s, Receive(p, app)))
  {
    if Refused(s, p) {
      assert HandleStep(s, p, app, net).s == s;
      UntouchedConserves(s, s);
    } else {
      var m := Message(s.nextId, if p.qos > 0 then p.mid else 0, p.qos, Invalid, false, p.body);
      var s1 := s.(nextId := s.nextId + 1);
      var t := AcceptStep(s1, m, app, net).s;
      assert HandleStep(s, p, app, net).s == t;
      AcceptConserves(s1, m, app, net);
      FreshIdConserves(s, t, if m.qos == 2 then multiset{m.(state := WaitForPubrel)} else multiset{});
    }
  }

  lemma HandleConserves(s: Session, p: Received, app: seq<Request>, net: Network)
    requires Qos2Only(s.inq) && s.sock
    ensures Conserves(s, HandleStep(s, p, app, net).s, AcceptedBy(s, Receive(p, app)))
  {
    match p
    case RecvPuback(a) => AckUntouched(s, a, 1, app, net);
    case RecvPubcomp(a) => AckUntouched(s, a, 2, app, net);
    case RecvPubrec(a) => PubrecUntouched(s, a, app, net);
    case RecvPubrel(a) => PubrelConserves(s, a, app, net);
    case RecvPublish(_, _, _, _) => PublishConserves(s, p, app, net);
    case RecvConnack(bad, code, rmax) => if !bad { ConnackConserves(s, code, rmax, app, net); }
  }

  lemma ReconnectConserves(s: Session, refused: bool, net: Network)
    requires Qos2Only(s.inq)
    ensures Conserves(s, ReconnectStep(s, refused, net), multiset{})
  {
    var t := Reset(s, false);
    ResetConserves(s, false);
    SendUntouched(t.(sock := true, cs := Connected), Connect, net);
    ConservesTrans(s, t, ReconnectStep(s, refused, net), multiset{});
  }

  lemma LoopConserves(s: Session, p: Received, app: seq<Request>, net: Network)
    requires Qos2Only(s.inq) && s.sock
    ensures Conserves(s, LoopReadStep(s, p, app, net), AcceptedBy(s, Receive(p, app)))
  {
    var t := HandleStep(s, p, app, net).s;
    HandleConserves(s, p, app, net);
    assert Untouched(t, t.(sock := false)) && Untouched(t, t);
    ConservesTrans(s, t, LoopReadStep(s, p, app, net), AcceptedBy(s, Receive(p, app)));
  }

  lemma StepConserves(s: Session, e: Event, net: Network)
    requires Counted(s)
    ensures Conserves(s, Step(s, e, net), AcceptedBy(s, e))
  {
    var t := Step(s, e, net);
    match e
    case AppPublish(req) =>
      PublishUntouched(s, req, net);
      UntouchedConserves(s, t);
    case Receive(p, app) =>
      if s.sock {
        LoopConserves(s, p, app, net);
      } else {
        UntouchedConserves(s, t);
      }
    case SocketLost =>
      UntouchedConserves(s, t);
    case Reconnect(refused) =>
      ReconnectConserves(s, refused, net);
    case AppDisconnect =>
      SendUntouched(s.(cs := Disconnected), Disconnect, net);
      UntouchedConserves(s, t);
  }

  /** Conservation over whole runs: whatever the broker and the network do, the QoS 2 messages
    accepted are exactly those delivered, those dropped by a failed PUBCOMP, and those still
    queued; and both `queue_len` counters are right. */
  lemma {:induction false} RunConserves(s: Session, events: seq<Event>, net: Network)
    requires Counted(s)
    ensures Conserves(s, Run(s, events, net), Accepted(s, events, net))
    decreases |events|
  {
    if events != [] {
      StepConserves(s, events[0], net);
      RunConserves(Step(s, events[0], net), events[1..], net);
    }
  }

  // ---------- at most once ----------

  lemma {:induction false} AcceptedDistinct(s: Session, events: seq<Event>, net: Network, m: Message)
    requires Counted(s)
    ensures Accepted(s, events, net)[m] <= 1
    ensures Accepted(s, events, net)[m] == 1 ==> m.id >= s.nextId
    decreases |events|
  {
    if events != [] {
      var t := Step(s, events[0], net);
      StepConserves(s, events[0], net);
      AcceptedDistinct(t, events[1..], net, m);
      if AcceptedBy(s, events[0]) != multiset{} {
        AcceptedAdvances(s, events[0], net);
      }
    }
  }

  lemma AcceptedAdvances(s: Session, e: Event, net: Network)
    requires AcceptedBy(s, e) != multiset{}
    ensures Step(s, e, net).nextId == s.nextId + 1
  {
    var p := e.packet;
    var m := Message(s.nextId, p.mid, 2, Invalid, false, p.body);
    assert HandleStep(s, p, e.app, net) == AcceptStep(s.(nextId := s.nextId + 1), m, e.app, net);
  }

  /** No accepted QoS 2 message is ever delivered twice, or delivered and dropped, or delivered
    and still queued: over any run from the initial session each one is in one place. */
  lemma DeliveredAtMostOnce(protocol: ProtocolVersion, outMax: nat, inMax: nat,
                            events: seq<Event>, net: Network, m: Message)
    ensures var s := Run(Initial(protocol, outMax, inMax), events, net);
            && Counted(s)
            && Delivered(s.log)[m] + Lost(s.log)[m] + multiset(s.inq)[m] ==
                 Accepted(Initial(protocol, outMax, inMax), events, net)[m] <= 1
  {
    var s0 := Initial(protocol, outMax, inMax);
    RunConserves(s0, events, net);
    AcceptedDistinct(s0, events, net, m);
    assert Accounted(s0) == multiset{};
    assert Accounted(Run(s0, events, net)) == Accepted(s0, events, net);
  }

  /** A QoS 1 or 2 PUBLISH that MQTT 5 flow control refuses really finds the window full: at least
    as many messages are queued as the Receive Maximum (section 4.9 of MQTT 5.0). */
  lemma RefusedOnlyWhenFull(protocol: ProtocolVersion, outMax: nat, inMax: nat, events: seq<Event>, net: Network)
    ensures var s := Run(Initial(protocol, outMax, inMax), events, net);
            s.inQuota == 0 ==> |s.inq| >= s.inMax
  {
    RunConserves(Initial(protocol, outMax, inMax), events, net);
  }
}
