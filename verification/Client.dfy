/** The message flow as the library runs it: the fields of `struct mosquitto` updated in place
  by loops over the queues.  Every method is proved equal to its function in `MessageFlow`. */
module Client {
  import opened Common
  import opened MessageFlow
  import opened QueueSteps

  class Mosquitto {
    const net: Network
    const protocol: ProtocolVersion

    var sock: bool
    var cs: ClientState
    var lastMid: nat
    var nextId: nat

    // msgs_out
    var outq: seq<Message>
    var outLen: int
    var outQuota: int
    var outMax: nat

    // msgs_in
    var inq: seq<Message>
    var inLen: int
    var inQuota: int
    var inMax: nat

    // what has been handed to the network and to the application so far
    var sends: nat
    var log: seq<Output>

    function Abs(): Session
      reads this
    {
      Session(protocol, sock, cs, lastMid, nextId, outq, outLen, outQuota, outMax,
              inq, inLen, inQuota, inMax, sends, log)
    }

    constructor (protocol: ProtocolVersion, outMax: nat, inMax: nat, net: Network)
      ensures Abs() == Initial(protocol, outMax, inMax) && this.net == net
    {
      this.protocol, this.net := protocol, net;
      sock, cs, lastMid, nextId := false, New, 0, 0;
      outq, outLen, outQuota, this.outMax := [], 0, outMax, outMax;
      inq, inLen, inQuota, this.inMax := [], 0, inMax, inMax;
      sends, log := 0, [];
    }

    // ---------- util_mosq.c, send_mosq.c ----------

    method IncrementSendQuota()
      modifies `outQuota
      ensures outQuota == Increment(old(outQuota), outMax)
    {
      if outQuota < outMax {
        outQuota := outQuota + 1;
      }
    }

    method DecrementSendQuota()
      modifies `outQuota
      ensures outQuota == Decrement(old(outQuota))
    {
      if outQuota > 0 {
        outQuota := outQuota - 1;
      }
    }

    method IncrementReceiveQuota()
      modifies `inQuota
      ensures inQuota == Increment(old(inQuota), inMax)
    {
      if inQuota < inMax {
        inQuota := inQuota + 1;
      }
    }

    method DecrementReceiveQuota()
      modifies `inQuota
      ensures inQuota == Decrement(old(inQuota))
    {
      if inQuota > 0 {
        inQuota := inQuota - 1;
      }
    }

    method MidGenerate() returns (mid: nat)
      modifies `lastMid
      ensures mid == lastMid == NextMid(old(lastMid))
      ensures 0 < mid < 0x1_0000
    {
      lastMid := (lastMid + 1) % 0x1_0000;
      if lastMid == 0 {
        lastMid := lastMid + 1;
      }
      mid := lastMid;
    }

    method PacketQueue(p: Packet) returns (rc: Rc)
      modifies `sends, `log
      ensures sends == old(sends) + 1
      ensures log == old(log) + [Sent(p, sock && net(old(sends)))]
      ensures rc == SendRc(sock, sock && net(old(sends)))
    {
      var ok := sock && net(sends);
      sends := sends + 1;
      log := log + [Sent(p, ok)];
      rc := if !sock then NoConn else if ok then Success else SendFailed;
    }

    method SendPacket(p: Packet) returns (rc: Rc)
      modifies `sends, `log
      ensures Outcome(Abs(), rc) == Send(old(Abs()), p, net)
    {
      rc := PacketQueue(p);
    }

    // ---------- messages_mosq.c ----------

    method ReleaseToInflight() returns (rc: Rc)
      modifies `outq, `outQuota, `sends, `log
      ensures Outcome(Abs(), rc) == Release(old(Abs()), net)
    {
      rc := ReleaseLoop();
      assert old(outq)[0..] == old(outq);
    }

    method ReleaseLoop() returns (rc: Rc)
      modifies `outq, `outQuota, `sends, `log
      ensures Released(outq, outQuota, sends, log, rc) ==
              old(ReleaseAt(outq, 0, outQuota, sock, sends, log, net))
    {
      ghost var whole := ReleaseAt(outq, 0, outQuota, sock, sends, log, net);
      var i := 0;
      while i < |outq|
        invariant i <= |outq|
        invariant whole == ReleaseAt(outq, i, outQuota, sock, sends, log, net)
      {
        if outQuota > 0 {
          if outq[i].qos > 0 && outq[i].state == Invalid {
            ReleaseAtSend(outq, i, outQuota, sock, sends, log, net);
            rc := ReleaseMessage(i);
            if rc != Success {
              return;
            }
            DecrementSendQuota();
          } else {
            ReleaseAtSkip(outq, i, outQuota, sock, sends, log, net);
          }
        } else {
          ReleaseAtStop(outq, i, outQuota, sock, sends, log, net);
          return Success;
        }
        i := i + 1;
      }
      ReleaseAtStop(outq, i, outQuota, sock, sends, log, net);
      rc := Success;
    }

    /** The message at position i gets its waiting state and is sent. */
    method ReleaseMessage(i: nat) returns (rc: Rc)
      requires i < |outq|
      modifies `outq, `sends, `log
      ensures var m, ok := Activated(old(outq[i])), sock && net(old(sends));
        && outq == old(outq)[i := m]
        && sends == old(sends) + 1 && log == old(log) + [Sent(ToPacket(m), ok)] && rc == SendRc(sock, ok)
    {
      var cur := outq[i];
      if cur.qos == 1 {
        cur := cur.(state := WaitForPuback);
      } else if cur.qos == 2 {
        cur := cur.(state := WaitForPubrec);
      }
      outq := outq[i := cur];
      rc := PacketQueue(ToPacket(cur));
    }

    method QueueOutgoing(m: Message) returns (rc: Rc)
      modifies `outq, `outLen, `outQuota, `sends, `log
      ensures Outcome(Abs(), rc) == QueueOut(old(Abs()), m, net)
    {
      outq := outq + [m];
      outLen := outLen + 1;
      rc := ReleaseToInflight();
    }

    method QueueIncoming(m: Message)
      modifies `inq, `inLen
      ensures Abs() == QueueIn(old(Abs()), m)
    {
      inq := inq + [m];
      inLen := inLen + 1;
    }

    method ResetIncoming()
      modifies `inq, `inLen, `inQuota
      ensures ResetIn(inq, inQuota) == ResetInQueue(old(inq), inMax)
      ensures inLen == |old(inq)|
    {
      ghost var whole := ResetInQueue(inq, inMax);
      ghost var visited := 0;
      inQuota := inMax;
      inLen := 0;
      var i := 0;
      while i < |inq|
        invariant i <= |inq|
        invariant visited + |inq| - i == |old(inq)| && inLen == visited
        invariant var rest := ResetInQueue(inq[i..], inQuota);
                  whole == ResetIn(inq[..i] + rest.q, rest.quota)
        decreases |inq| - i
      {
        inLen := inLen + 1;
        visited := visited + 1;
        if inq[i].qos != 2 {
          ghost var before := inq;
          inq := RemoveAt(inq, i);
          assert inq[i..] == before[i + 1..] && inq[..i] == before[..i];
        } else {
          DecrementReceiveQuota();
          i := i + 1;
        }
      }
      assert inq[..i] == inq;
    }

    method ResetOutgoing(quotaOnly: bool)
      modifies `outq, `outLen, `outQuota
      ensures ResetOut(outq, outQuota) == ResetOutQueue(old(outq), outMax, quotaOnly)
      ensures outLen == |old(outq)|
    {
      outQuota := outMax;
      outLen := 0;
      ghost var whole := ResetAt(outq, 0, outQuota, quotaOnly);
      var i := 0;
      while i < |outq|
        invariant i <= |outq| == |old(outq)| && outLen == i
        invariant whole == ResetAt(outq, i, outQuota, quotaOnly)
      {
        ResetAtStep(outq, i, outQuota, quotaOnly);
        outLen := outLen + 1;
        var m := outq[i];
        if outQuota != 0 {
          DecrementSendQuota();
          if !quotaOnly {
            if m.qos == 1 {
              m := m.(state := PublishQos1);
            } else if m.qos == 2 {
              if m.state == WaitForPubrec {
                m := m.(state := PublishQos2);
              } else if m.state == WaitForPubcomp {
                m := m.(state := ResendPubrel);
              }
            }
          }
        } else {
          m := m.(state := Invalid);
        }
        outq := outq[i := m];
        i := i + 1;
      }
      assert outq[..i] + [] == outq;
    }

    method ReconnectReset(quotaOnly: bool)
      modifies `inq, `inLen, `inQuota, `outq, `outLen, `outQuota
      ensures Abs() == Reset(old(Abs()), quotaOnly)
    {
      ResetIncoming();
      ResetOutgoing(quotaOnly);
    }

    method FindOutgoing(mid: nat) returns (i: nat)
      ensures i == FirstMid(outq, mid)
    {
      i := 0;
      while i < |outq|
        invariant i <= |outq|
        invariant FirstMid(outq, mid) == i + FirstMid(outq[i..], mid)
      {
        if outq[i].mid == mid {
          return;
        }
        i := i + 1;
      }
    }

    method FindIncoming(mid: nat) returns (i: nat)
      ensures i == FirstMid(inq, mid)
    {
      i := 0;
      while i < |inq|
        invariant i <= |inq|
        invariant FirstMid(inq, mid) == i + FirstMid(inq[i..], mid)
      {
        if inq[i].mid == mid {
          return;
        }
        i := i + 1;
      }
    }

    method RemoveOutgoing(mid: nat, qos: int) returns (rc: Rc)
      modifies `outq, `outLen
      ensures Outcome(Abs(), rc) == RemoveOut(old(Abs()), mid, qos)
    {
      var i := FindOutgoing(mid);
      if i == |outq| {
        return NotFound;
      }
      if outq[i].qos != qos {
        return Protocol;
      }
      outq := RemoveAt(outq, i);
      outLen := outLen - 1;
      rc := Success;
    }

    method RemoveIncoming(mid: nat, qos: int) returns (rc: Rc, message: Option<Message>)
      modifies `inq, `inLen
      ensures Outcome(Abs(), rc) == RemoveIn(old(Abs()), mid, qos)
      ensures rc == Success ==> message == Some(old(inq)[FirstMid(old(inq), mid)])
    {
      message := None;
      var i := FindIncoming(mid);
      if i == |inq| {
        return NotFound, message;
      }
      if inq[i].qos != qos {
        return Protocol, message;
      }
      message := Some(inq[i]);
      inq := RemoveAt(inq, i);
      inLen := inLen - 1;
      rc := Success;
    }

    method OutUpdate(mid: nat, state: MsgState, qos: int) returns (rc: Rc)
      modifies `outq
      ensures Outcome(Abs(), rc) == UpdateOut(old(Abs()), mid, state, qos)
    {
      var i := FindOutgoing(mid);
      if i == |outq| {
        return NotFound;
      }
      if outq[i].qos != qos {
        return Protocol;
      }
      outq := outq[i := outq[i].(state := state)];
      rc := Success;
    }

    method RetryCheck()
      modifies `outq, `sends, `log
      ensures Abs() == Retry(old(Abs()), net)
    {
      RetryLoop();
      assert old(outq)[0..] == old(outq);
    }

    method RetryLoop()
      modifies `outq, `sends, `log
      ensures Retried(outq, sends, log) == old(RetryAt(outq, 0, sock, sends, log, net))
    {
      ghost var whole := RetryAt(outq, 0, sock, sends, log, net);
      var i := 0;
      while i < |outq|
        invariant i <= |outq|
        invariant whole == RetryAt(outq, i, sock, sends, log, net)
      {
        RetryAtStep(outq, i, sock, sends, log, net);
        var msg := outq[i].(dup := true);
        var p: Option<Packet> := None;
        match msg.state {
          case PublishQos1 | PublishQos2 => p := Some(ToPacket(msg));
          case WaitForPubrel => p := Some(Pubrec(msg.mid));
          case ResendPubrel | WaitForPubcomp => p := Some(Pubrel(msg.mid));
          case _ =>
        }
        if p.Some? {
          outq := outq[i := msg];
          var ignored := PacketQueue(p.value);
        }
        i := i + 1;
      }
      assert outq[..i] + [] == outq;
    }

    // ---------- actions.c ----------

    method PublishMessage(req: Request) returns (rc: Rc)
      modifies this
      ensures Outcome(Abs(), rc) == PublishStep(old(Abs()), req, net)
    {
      if req.qos < 0 || req.qos > 2 {
        return Inval;
      }
      var mid := MidGenerate();
      var m := Message(nextId, mid, req.qos, Invalid, false, req.body);
      nextId := nextId + 1;
      if req.qos == 0 {
        rc := SendPacket(ToPacket(m));
      } else {
        rc := QueueOutgoing(m);
      }
    }

    /** An application callback that publishes. */
    method Application(app: seq<Request>)
      modifies this
      ensures Abs() == RunApp(old(Abs()), app, net)
    {
      var i := 0;
      while i < |app|
        invariant i <= |app|
        invariant RunApp(old(Abs()), app, net) == RunApp(Abs(), app[i..], net)
      {
        var rc := PublishMessage(app[i]);
        assert app[i..][1..] == app[i + 1..];
        i := i + 1;
      }
    }

    // ---------- handle_*.c ----------

    method HandlePubackcomp(a: Ack, qos: int, app: seq<Request>) returns (rc: Rc)
      modifies this
      ensures Outcome(Abs(), rc) == PubackcompStep(old(Abs()), a, qos, app, net)
    {
      if cs != Active {
        return Protocol;
      }
      if a.BadHeader? {
        return Malformed;
      }
      IncrementSendQuota();
      if a.BadBody? {
        return a.rc;
      }
      if a.mid == 0 {
        return Protocol;
      }
      rc := RemoveOutgoing(a.mid, qos);
      if rc == Success {
        log := log + [OnPublish(a.mid)];
        Application(app);
      } else if rc != NotFound {
        return;
      }
      var ignored := ReleaseToInflight();
      rc := Success;
    }

    method HandlePubrec(a: Ack, app: seq<Request>) returns (rc: Rc)
      modifies this
      ensures Outcome(Abs(), rc) == PubrecStep(old(Abs()), a, app, net)
    {
      if cs != Active {
        return Protocol;
      }
      if a.BadHeader? {
        return Malformed;
      }
      if a.BadBody? {
        return a.rc;
      }
      if a.mid == 0 {
        return Protocol;
      }
      if a.reason < 0x80 || protocol != Mqtt5 {
        rc := OutUpdate(a.mid, WaitForPubcomp, 2);
      } else {
        RejectedMessage(a.mid, a.reason, app);
        return Success;
      }
      if rc != NotFound && rc != Success {
        return;
      }
      rc := SendPacket(Pubrel(a.mid));
    }

    /** The broker refused the message: it is removed and its quota given back. */
    method RejectedMessage(mid: nat, reason: nat, app: seq<Request>)
      requires cs == Active && mid != 0 && reason >= 0x80 && protocol == Mqtt5
      modifies this
      ensures Outcome(Abs(), Success) == PubrecStep(old(Abs()), Ack(mid, reason), app, net)
    {
      var rc := RemoveOutgoing(mid, 2);
      if rc == Success {
        log := log + [OnPublish(mid)];
        Application(app);
      }
      IncrementSendQuota();
      var ignored := ReleaseToInflight();
    }

    method HandlePublish(bad: bool, qos: int, mid: nat, body: string, app: seq<Request>) returns (rc: Rc)
      modifies this
      ensures Outcome(Abs(), rc) == IncomingPublishStep(old(Abs()), bad, qos, mid, body, app, net)
    {
      if cs != Active {
        return Protocol;
      }
      if bad {
        return Malformed;
      }
      var m := Message(nextId, 0, qos, Invalid, false, body);
      if qos > 0 {
        if protocol == Mqtt5 && inQuota == 0 {
          return Protocol;
        }
        if mid == 0 {
          return Protocol;
        }
        m := m.(mid := mid);
      }
      nextId := nextId + 1;
      assert Abs() == old(Abs()).(nextId := m.id + 1);
      rc := AcceptPublish(m, app);
    }

    method AcceptPublish(m: Message, app: seq<Request>) returns (rc: Rc)
      modifies this
      ensures Outcome(Abs(), rc) == AcceptStep(old(Abs()), m, app, net)
    {
      if m.qos == 0 {
        log := log + [OnMessage(m)];
        Application(app);
        rc := Success;
      } else if m.qos == 1 {
        DecrementReceiveQuota();
        IncrementReceiveQuota();
        rc := SendPacket(Puback(m.mid));
        log := log + [OnMessage(m)];
        Application(app);
      } else if m.qos == 2 {
        DecrementReceiveQuota();
        rc := SendPacket(Pubrec(m.mid));
        QueueIncoming(m.(state := WaitForPubrel));
      } else {
        rc := Protocol;
      }
    }

    method HandlePubrel(a: Ack, app: seq<Request>) returns (rc: Rc)
      modifies this
      ensures Outcome(Abs(), rc) == PubrelStep(old(Abs()), a, app, net)
    {
      if cs != Active {
        return Protocol;
      }
      if a.BadHeader? {
        return Malformed;
      }
      if a.BadBody? {
        return a.rc;
      }
      if a.mid == 0 {
        return Protocol;
      }
      IncrementReceiveQuota();
      rc := SendPacket(Pubcomp(a.mid));
      if rc != Success {
        var removed, lost := RemoveIncoming(a.mid, 2);
        if removed == Success {
          log := log + [Dropped(lost.value)];
        }
        return;
      }
      var message: Option<Message>;
      rc, message := RemoveIncoming(a.mid, 2);
      if rc == Success {
        log := log + [OnMessage(message.value)];
        Application(app);
      } else if rc == NotFound {
        rc := Success;
      }
    }

    method HandleConnack(bad: bool, code: nat, receiveMax: Option<nat>, app: seq<Request>) returns (rc: Rc)
      modifies this
      ensures Outcome(Abs(), rc) == ConnackStep(old(Abs()), bad, code, receiveMax, app, net)
    {
      if bad {
        return Malformed;
      }
      if receiveMax.Some? {
        outMax := receiveMax.value;
      }
      outQuota := outMax;
      ReconnectReset(true);
      Application(app);
      if code == 0 {
        if cs != Disconnecting {
          cs := Active;
        }
        RetryCheck();
        rc := Success;
      } else if code <= 5 {
        rc := ConnRefused;
      } else {
        rc := Protocol;
      }
    }

    // ---------- connect.c, loop.c ----------

    method ReconnectClient(refused: bool)
      modifies this
      ensures Abs() == ReconnectStep(old(Abs()), refused, net)
    {
      ReconnectReset(false);
      sock := false;
      if refused {
        cs := ConnectPending;
        return;
      }
      sock := true;
      cs := Connected;
      var rc := SendPacket(Connect);
      if rc != Success {
        sock := false;
        cs := New;
      }
    }

    method LoopRead(p: Received, app: seq<Request>)
      modifies this
      ensures Abs() == LoopReadStep(old(Abs()), p, app, net)
    {
      if !sock {
        return;
      }
      var rc;
      match p {
        case RecvPuback(a) => rc := HandlePubackcomp(a, 1, app);
        case RecvPubcomp(a) => rc := HandlePubackcomp(a, 2, app);
        case RecvPubrec(a) => rc := HandlePubrec(a, app);
        case RecvPubrel(a) => rc := HandlePubrel(a, app);
        case RecvPublish(bad, qos, mid, body) => rc := HandlePublish(bad, qos, mid, body, app);
        case RecvConnack(bad, code, rmax) => rc := HandleConnack(bad, code, rmax, app);
      }
      if rc != Success {
        sock := false;
      }
    }

    method DisconnectClient() returns (rc: Rc)
      modifies this
      ensures Outcome(Abs(), rc) == DisconnectStep(old(Abs()), net)
    {
      cs := Disconnected;
      if !sock {
        return NoConn;
      }
      rc := SendPacket(Disconnect);
    }
  }
}
