/** When a publish overtakes messages queued before it, so that first transmissions are out of the
  order of the publish calls: exact conditions, and a run for each of the two ways. */
module Overtaking {
  import opened Common
  import opened ExactlyOnce
  import opened Exchange
  import opened Identities
  import opened MessageFlow
  import opened Ordering
  import opened QueueSteps
  import opened SendWindow

  // ---------- one publish ----------

  lemma {:induction false} ReleaseOnlyLast(q: seq<Message>, i: nat, quota: int, sends: nat, log: seq<Output>,
                                            net: Network)
    requires i < |q| && quota > 0 && net(sends)
    requires forall j :: 0 <= j < |q| - 1 ==> q[j].state != Invalid
    requires q[|q| - 1].state == Invalid && q[|q| - 1].qos > 0
    ensures ReleaseAt(q, i, quota, true, sends, log, net).log == log + [Sent(ToPacket(Activated(q[|q| - 1])), true)]
    ensures ReleaseAt(q, i, quota, true, sends, log, net).q == q[|q| - 1 := Activated(q[|q| - 1])]
    decreases |q| - i
  {
    if i < |q| - 1 {
      ReleaseAtSkip(q, i, quota, true, sends, log, net);
      ReleaseOnlyLast(q, i + 1, quota, sends, log, net);
    } else {
      var m := Activated(q[i]);
      ReleaseAtSend(q, i, quota, true, sends, log, net);
      ReleaseAtStop(q[i := m], i + 1, Decrement(quota), true, sends + 1, log + [Sent(ToPacket(m), true)], net);
    }
  }

  lemma {:induction false} OvertakenNotClosed(q: seq<Message>, log: seq<Output>, o: Output, i: nat)
    requires i < |q| && PubOk(o) && q[i].id < o.packet.id && !Transmitted(log, q[i].id)
    ensures !Closed(q, log + [o])
  {
    assert (log + [o])[|log|] == o;
    if Transmitted(log + [o], q[i].id) {
      TransmittedBefore(log, o, q[i].id);
    }
  }

  /** Exactly when an application's publish keeps the order.  In an orderly session with an open socket, no
    queued message is overtaken if and only if the quota is used up or everything in flight has
    been transmitted.  An active session always satisfies the latter; between a reconnect and the
    retry pass of its CONNACK, messages queued offline do not. */
  lemma PublishKeepsOrderIff(s: Session, req: Request, net: Network)
    requires OrderState(s) && s.sock && Reliable(net, 0) && s.outMax > 0 && (req.qos == 1 || req.qos == 2)
    ensures var t := PublishStep(s, req, net).s;
            Closed(t.outq, t.log) <==> s.outQuota == 0 || AllSent(s.outq, s.log)
  {
    if s.outQuota == 0 || AllSent(s.outq, s.log) {
      PublishOrdered(s, req, net);
    } else {
      var i :| 0 <= i < |s.outq| && s.outq[i].state != Invalid && !Transmitted(s.log, s.outq[i].id);
      var m := Message(s.nextId, NextMid(s.lastMid), req.qos, Invalid, false, req.body);
      var q := s.outq + [m];
      assert q[|q| - 1] == m && q[i] == s.outq[i];
      ReleaseAtStart(q, s.outQuota, true, s.sends, s.log, net);
      ReleaseOnlyLast(q, 0, s.outQuota, s.sends, s.log, net);
      OvertakenNotClosed(q[|q| - 1 := Activated(m)], s.log, Sent(ToPacket(Activated(m)), true), i);
    }
  }

  // ---------- the connect callback ----------

  /** The retry pass publishes it. */
  predicate Held(m: Message) {
    m.qos > 0 && (m.state == PublishQos1 || m.state == PublishQos2)
  }

  /** Everything queued is in flight, quota is left, and message i waits for the retry pass. */
  predicate Waiting(s: Session, i: nat) {
    && s.sock && s.outQuota > 0 && SortedSession(s)
    && (forall j :: 0 <= j < |s.outq| ==> s.outq[j].state != Invalid)
    && i < |s.outq| && Held(s.outq[i]) && !Transmitted(s.log, s.outq[i].id)
  }

  /** Message i waits for the retry pass, and entry k of the log transmitted a younger one. */
  predicate Overtaken(s: Session, i: nat, k: nat) {
    && s.sock && SortedSession(s)
    && i < |s.outq| && Held(s.outq[i]) && !Transmitted(s.log, s.outq[i].id)
    && k < |s.log| && PubOk(s.log[k]) && s.outq[i].id < s.log[k].packet.id
  }

  lemma StillNotTransmitted(log: seq<Output>, extra: seq<Output>, id: nat)
    requires !Transmitted(log, id) && NoPublish(extra, id)
    ensures !Transmitted(log + extra, id)
  {
    var l := log + extra;
    forall k | 0 <= k < |l| && PubOk(l[k]) ensures l[k].packet.id != id {
      if k < |log| {
        assert l[k] == log[k];
      } else {
        assert l[k] == extra[k - |log|];
      }
    }
  }

  lemma PublishOvertaken(s: Session, req: Request, net: Network, i: nat, k: nat)
    requires Overtaken(s, i, k)
    ensures Overtaken(PublishStep(s, req, net).s, i, k)
  {
    PublishSorted(s, req, net);
    var id := s.outq[i].id;
    var m := Message(s.nextId, NextMid(s.lastMid), req.qos, Invalid, false, req.body);
    if req.qos == 1 || req.qos == 2 {
      var q := s.outq + [m];
      assert q[i] == s.outq[i] && q[|s.outq|] == m;
      forall j | 0 <= j < |q| && q[j].id == id ensures q[j].state != Invalid {
        assert j < |s.outq| ==> q[j] == s.outq[j];
      }
      ReleaseQuiet(q, s.outQuota, s.sock, s.sends, net, id);
      StillNotTransmitted(s.log, ReleaseQueue(q, s.outQuota, s.sock, s.sends, net).log, id);
    } else if req.qos == 0 {
      var o := Sent(ToPacket(m), s.sock && net(s.sends));
      if Transmitted(s.log + [o], id) {
        TransmittedBefore(s.log, o, id);
      }
    }
  }

  lemma {:induction false} RunAppOvertaken(s: Session, app: seq<Request>, net: Network, i: nat, k: nat)
    requires Overtaken(s, i, k)
    ensures Overtaken(RunApp(s, app, net), i, k)
    decreases |app|
  {
    if app != [] {
      PublishOvertaken(s, app[0], net, i, k);
      RunAppOvertaken(PublishStep(s, app[0], net).s, app[1..], net, i, k);
    }
  }

  lemma YoungerSent(s: Session, t: Session, o: Output, i: nat)
    requires Waiting(s, i) && t.sock && SortedSession(t)
    requires i < |t.outq| && t.outq[i] == s.outq[i] && t.log == s.log + [o]
    requires PubOk(o) && o.packet.id == s.nextId
    ensures Overtaken(t, i, |s.log|)
  {
    if Transmitted(t.log, s.outq[i].id) {
      TransmittedBefore(s.log, o, s.outq[i].id);
    }
    assert t.log[|s.log|] == o;
  }

  /** A publish above QoS 0 goes out at once and overtakes what waits. */
  lemma PublishOvertakes(s: Session, req: Request, net: Network, i: nat)
    requires Waiting(s, i) && Reliable(net, 0) && (req.qos == 1 || req.qos == 2)
    ensures Overtaken(PublishStep(s, req, net).s, i, |s.log|)
  {
    var m := Message(s.nextId, NextMid(s.lastMid), req.qos, Invalid, false, req.body);
    var q := s.outq + [m];
    PublishSorted(s, req, net);
    PublishKeepsState(s, req, net);
    PublishReleases(s, req, m, net);
    assert q[|q| - 1] == m;
    ReleaseOnlyLast(q, 0, s.outQuota, s.sends, s.log, net);
    YoungerSent(s, PublishStep(s, req, net).s, Sent(ToPacket(Activated(m)), true), i);
  }

  lemma PublishKeepsWaiting(s: Session, req: Request, net: Network, i: nat)
    requires Waiting(s, i) && req.qos != 1 && req.qos != 2
    ensures Waiting(PublishStep(s, req, net).s, i)
  {
    if req.qos == 0 {
      var m := Message(s.nextId, NextMid(s.lastMid), 0, Invalid, false, req.body);
      var o := Sent(ToPacket(m), s.sock && net(s.sends));
      if Transmitted(s.log + [o], s.outq[i].id) {
        TransmittedBefore(s.log, o, s.outq[i].id);
      }
    }
  }

  /** A callback that publishes above QoS 0 overtakes what waits. */
  lemma {:induction false} RunAppOvertakes(s: Session, app: seq<Request>, net: Network, i: nat) returns (k: nat)
    requires Waiting(s, i) && Reliable(net, 0) && !Qos0Only(app)
    ensures Overtaken(RunApp(s, app, net), i, k)
    decreases |app|
  {
    var t := PublishStep(s, app[0], net).s;
    if app[0].qos == 1 || app[0].qos == 2 {
      k := |s.log|;
      PublishOvertakes(s, app[0], net, i);
      RunAppOvertaken(t, app[1..], net, i, k);
    } else {
      assert !Qos0Only(app[1..]) by {
        var j :| 0 <= j < |app| && (app[j].qos == 1 || app[j].qos == 2);
        assert app[1..][j - 1] == app[j];
      }
      PublishKeepsWaiting(s, app[0], net, i);
      k := RunAppOvertakes(t, app[1..], net, i);
    }
  }

  /** The retry pass transmits every message that waits for it. */
  lemma {:induction false} RetrySends(q: seq<Message>, i: nat, sends: nat, net: Network) returns (j: nat)
    requires i < |q| && Held(q[i]) && Reliable(net, 0)
    ensures var log := RetryQueue(q, true, sends, net).log;
            j < |log| && PubOk(log[j]) && log[j].packet.id == q[i].id
    decreases |q|
  {
    var p := RetryPacket(q[0]);
    if i == 0 {
      j := 0;
    } else {
      assert q[1..][i - 1] == q[i];
      j := RetrySends(q[1..], i - 1, if p.None? then sends else sends + 1, net);
      j := if p.None? then j else j + 1;
    }
  }

  lemma NotYetTransmitted(log: seq<Output>, k: nat, id: nat)
    requires k <= |log| && !Transmitted(log, id)
    ensures !Transmitted(log[..k], id)
  {
    forall j | 0 <= j < k && PubOk(log[..k][j]) ensures log[..k][j].packet.id != id {
      assert log[j] == log[..k][j];
    }
  }

  lemma RetryOvertaken(s: Session, i: nat, k: nat, net: Network)
    requires Overtaken(s, i, k) && Reliable(net, 0)
    ensures !InOrder(Retry(s, net).log)
  {
    var r := RetryQueue(s.outq, true, s.sends, net).log;
    var j := RetrySends(s.outq, i, s.sends, net);
    var l, b, id := s.log + r, |s.log| + j, s.outq[i].id;
    assert l[k] == s.log[k] && l[b] == r[j] && l[..k] == s.log[..k];
    NotYetTransmitted(s.log, k, id);
  }

  lemma OvertakenOpen(s: Session, i: nat, k: nat)
    requires Overtaken(s, i, k)
    ensures !Closed(s.outq, s.log)
  {
  }

  /** In an orderly session whose reset leaves quota, something waits unless all was transmitted. */
  lemma SomethingWaits(s: Session, code: nat, rmax: Option<nat>) returns (i: nat)
    requires OrderState(s) && s.sock && MaximumOk(s, RecvConnack(false, code, rmax))
    requires !AllSent(s.outq, s.log) && |s.outq| < (if rmax.Some? then rmax.value else s.outMax)
    ensures Waiting(Connecting(s, rmax), i)
  {
    var t := Connecting(s, rmax);
    ConnectingQuota(s, rmax);
    ResetEach(if rmax.Some? then s.(outMax := rmax.value) else s, true);
    assert t.outq == s.outq;
    i :| 0 <= i < |s.outq| && s.outq[i].state != Invalid && !Transmitted(s.log, s.outq[i].id);
    assert TypedMessage(s.outq[i]);
  }

  /** Exactly when a CONNACK keeps the order.  Its connect callback runs before its retry pass: with
    an accepted or a refused connection, order is kept if and only if the queue fills the maximum,
    everything in flight has been transmitted, or the callback publishes at QoS 0 only. */
  lemma ConnackKeepsOrderIff(s: Session, code: nat, rmax: Option<nat>, app: seq<Request>, net: Network)
    requires OrderState(s) && s.sock && Reliable(net, 0) && MaximumOk(s, RecvConnack(false, code, rmax))
    ensures var t := ConnackStep(s, false, code, rmax, app, net).s;
            OrderInv(t.outq, t.nextId, t.log) <==> ConnackOrderly(s, rmax, app)
  {
    if ConnackOrderly(s, rmax, app) {
      ConnackFlowing(s, code, rmax, app, net);
    } else {
      var i := SomethingWaits(s, code, rmax);
      var k := RunAppOvertakes(Connecting(s, rmax), app, net, i);
      var t := RunApp(Connecting(s, rmax), app, net);
      if code == 0 {
        RetryOvertaken(if t.cs == Disconnecting then t else t.(cs := Active), i, k, net);
      } else {
        OvertakenOpen(t, i, k);
      }
    }
  }

  // ---------- two runs ----------

  // One message published offline, then a reconnect, a second publish, and the CONNACK.

  const FIRST := Message(0, 1, 1, PublishQos1, false, "a")
  const SECOND := Message(1, 2, 1, WaitForPuback, false, "b")
  const START := Initial(Mqtt311, 20, 20)
  const OVERTAKING := [AppPublish(Request(1, "a")), Reconnect(false), AppPublish(Request(1, "b")),
                       Receive(RecvConnack(false, 0, None), [])]

  lemma OvertakingOffline(net: Network)
    requires Reliable(net, 0)
    ensures var s := Step(Step(START, OVERTAKING[0], net), OVERTAKING[1], net);
            && s.sock && s.cs == Connected && s.outQuota == 19 && s.outMax == 20
            && s.nextId == 1 && s.lastMid == 1 && s.inq == []
            && s.outq == [FIRST]
            && s.log == [Sent(ToPacket(FIRST), false), Sent(Connect, true)]
  {
    var s1 := Step(START, OVERTAKING[0], net);
    assert s1.outq == [FIRST.(state := WaitForPuback)] && s1.log == [Sent(ToPacket(FIRST), false)];
    ResetPositions(s1.outq, 20, false);
    assert Reset(s1, false).outq == [FIRST];
  }

  lemma OvertakingConnecting(s: Session, net: Network)
    requires Reliable(net, 0) && s.sock && s.cs == Connected && s.outQuota == 19 && s.outMax == 20
    requires s.nextId == 1 && s.lastMid == 1 && s.outq == [FIRST]
    ensures var t := Step(s, OVERTAKING[2], net);
            && t.sock && t.cs == Connected && t.outMax == 20
            && t.outq == [FIRST, SECOND] && t.log == s.log + [Sent(ToPacket(SECOND), true)]
  {
    var q := s.outq + [SECOND.(state := Invalid)];
    ReleaseAtStart(q, s.outQuota, true, s.sends, s.log, net);
    ReleaseOnlyLast(q, 0, s.outQuota, s.sends, s.log, net);
    assert q[1 := SECOND] == [FIRST, SECOND];
  }

  lemma OvertakingRetry(s: Session, net: Network)
    requires Reliable(net, 0) && s.sock && s.cs == Connected && s.outMax == 20 && s.outq == [FIRST, SECOND]
    ensures Step(s, OVERTAKING[3], net).log == s.log + [Sent(ToPacket(FIRST.(dup := true)), true)]
  {
    ResetPositions(s.outq, 20, true);
    var t := Reset(s, true).(cs := Active);
    assert t.outq == [FIRST, SECOND];
    assert t.outq[1..] == [SECOND] && [SECOND][1..] == [];
    assert RetryQueue([], true, t.sends + 1, net).log == [];
    assert RetryQueue([SECOND], true, t.sends + 1, net).log == [];
    assert RetryQueue(t.outq, true, t.sends, net).log == [Sent(ToPacket(FIRST.(dup := true)), true)];
  }

  /** The second message is transmitted before the first. */
  lemma OvertakingRun(net: Network)
    requires Reliable(net, 0)
    ensures !InOrder(Run(START, OVERTAKING, net).log)
  {
    OvertakingOffline(net);
    var s2 := Step(Step(START, OVERTAKING[0], net), OVERTAKING[1], net);
    OvertakingConnecting(s2, net);
    var s3 := Step(s2, OVERTAKING[2], net);
    OvertakingRetry(s3, net);
    var s4 := Step(s3, OVERTAKING[3], net);
    assert s4.log[2] == Sent(ToPacket(SECOND), true);
    assert s4.log[3] == Sent(ToPacket(FIRST.(dup := true)), true);
    assert s4.log[..2] == [Sent(ToPacket(FIRST), false), Sent(Connect, true)];
    assert !Transmitted(s4.log[..2], 0);
    assert Run(s3, [OVERTAKING[3]], net) == Run(s4, [], net) == s4;
    assert OVERTAKING[1..][1..][1..] == [OVERTAKING[3]];
    assert Run(START, OVERTAKING, net) == Run(s3, OVERTAKING[1..][1..][1..], net);
  }

  // The same with the second publish made in the connect callback.

  const FROM_CALLBACK := [AppPublish(Request(1, "a")), Reconnect(false),
                          Receive(RecvConnack(false, 0, None), [Request(1, "b")])]

  lemma CallbackWaits(s: Session)
    requires s.sock && s.outMax == 20 && s.nextId == 1 && s.outq == [FIRST]
    requires s.log == [Sent(ToPacket(FIRST), false), Sent(Connect, true)]
    ensures Waiting(Connecting(s, None), 0)
  {
    ResetPositions(s.outq, 20, true);
    assert Connecting(s, None).outq == [FIRST];
    assert !Transmitted(s.log, 0);
  }

  /** The message published in the callback is transmitted before the one published offline. */
  lemma CallbackRun(net: Network)
    requires Reliable(net, 0)
    ensures !InOrder(Run(START, FROM_CALLBACK, net).log)
  {
    var s2 := Step(Step(START, OVERTAKING[0], net), OVERTAKING[1], net);
    OvertakingOffline(net);
    CallbackWaits(s2);
    var app := [Request(1, "b")];
    assert app[0].qos == 1;
    var k := RunAppOvertakes(Connecting(s2, None), app, net, 0);
    var t := RunApp(Connecting(s2, None), app, net);
    RetryOvertaken(if t.cs == Disconnecting then t else t.(cs := Active), 0, k, net);
    var s3 := Step(s2, FROM_CALLBACK[2], net);
    RunThree(START, FROM_CALLBACK[0], FROM_CALLBACK[1], FROM_CALLBACK[2], net);
    assert Run(START, FROM_CALLBACK, net) == s3;
  }
}
