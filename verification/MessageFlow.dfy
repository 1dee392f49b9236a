/** The QoS 1/2 message flow of the MQTT client library, as functions on values.

  A `Session` is what the flow keeps in `struct mosquitto`: the two message queues with
  their quotas, the socket, the connection state, and (for stating properties) the log of
  everything handed to the network or to the application.  The class `Client.Mosquitto`
  updates the same fields in place and is proved equal to these functions. */
module MessageFlow {
  import opened Common

  /** `enum mosquitto_msg_state`, without the values no client branch ever assigns. */
  datatype MsgState =
    | Invalid
    | PublishQos1
    | WaitForPuback
    | PublishQos2
    | WaitForPubrec
    | ResendPubrel
    | WaitForPubrel
    | WaitForPubcomp

  /** `struct mosquitto_message_all`.  `id` stands for the identity of the heap object: it
    counts allocations, whereas packet identifiers (`mid`) wrap around and are reused. */
  datatype Message = Message(id: nat, mid: nat, qos: int, state: MsgState, dup: bool, body: string)

  datatype Packet =
    | Publish(id: nat, mid: nat, qos: int, dup: bool, body: string)
    | Puback(mid: nat)
    | Pubrec(mid: nat)
    | Pubrel(mid: nat)
    | Pubcomp(mid: nat)
    | Connect
    | Disconnect

  /** One entry of the log: a send attempt and whether it succeeded, a callback, or an
    incoming message freed without being delivered. */
  datatype Output =
    | Sent(packet: Packet, ok: bool)
    | OnPublish(mid: nat)
    | OnMessage(msg: Message)
    | Dropped(msg: Message)

  datatype ClientState = New | Connected | ConnectPending | Active | Disconnecting | Disconnected

  datatype Session = Session(
    protocol: ProtocolVersion,
    sock: bool,
    cs: ClientState,
    lastMid: nat,
    nextId: nat,
    outq: seq<Message>, outLen: int, outQuota: int, outMax: nat,
    inq: seq<Message>, inLen: int, inQuota: int, inMax: nat,
    sends: nat,
    log: seq<Output>)

  datatype Outcome = Outcome(s: Session, rc: Rc)

  /** Which send attempts the network accepts: attempt number n succeeds iff net(n), provided
    the socket is open. */
  type Network = nat -> bool

  // ---------- util_mosq.c ----------

  function Increment(quota: int, max: nat): int {
    if quota < max then quota + 1 else quota
  }

  function Decrement(quota: int): int {
    if quota > 0 then quota - 1 else quota
  }

  /** `mosquitto__mid_generate` on a 16-bit counter, skipping zero. */
  function NextMid(lastMid: nat): nat {
    var mid := (lastMid + 1) % 0x1_0000;
    if mid == 0 then 1 else mid
  }

  // ---------- sending ----------

  function SendRc(sock: bool, ok: bool): Rc {
    if !sock then NoConn else if ok then Success else SendFailed
  }

  function Send(s: Session, p: Packet, net: Network): (r: Outcome)
    ensures r.s.log == s.log + [Sent(p, r.rc == Success)]
    ensures r.rc == Success ==> s.sock
  {
    var ok := s.sock && net(s.sends);
    Outcome(s.(sends := s.sends + 1, log := s.log + [Sent(p, ok)]), SendRc(s.sock, ok))
  }

  function ToPacket(m: Message): Packet {
    Publish(m.id, m.mid, m.qos, m.dup, m.body)
  }

  // ---------- messages_mosq.c ----------

  datatype Released = Released(q: seq<Message>, quota: int, sends: nat, log: seq<Output>, rc: Rc)

  function Activated(m: Message): Message {
    m.(state := if m.qos == 1 then WaitForPuback else if m.qos == 2 then WaitForPubrec else m.state)
  }

  /** `message__release_to_inflight`: while quota is left, every message in state Invalid gets
    its waiting state, is sent, and only then costs quota; the first failed send ends it. */
  function ReleaseQueue(q: seq<Message>, quota: int, sock: bool, sends: nat, net: Network): (r: Released)
    ensures |r.q| == |q|
  {
    if q == [] || quota <= 0 then
      Released(q, quota, sends, [], Success)
    else if q[0].qos > 0 && q[0].state == Invalid then
      var m := Activated(q[0]);
      var ok := sock && net(sends);
      var o := Sent(ToPacket(m), ok);
      if !ok then
        Released([m] + q[1..], quota, sends + 1, [o], SendRc(sock, ok))
      else
        var r := ReleaseQueue(q[1..], Decrement(quota), sock, sends + 1, net);
        Released([m] + r.q, r.quota, r.sends, [o] + r.log, r.rc)
    else
      var r := ReleaseQueue(q[1..], quota, sock, sends, net);
      r.(q := [q[0]] + r.q)
  }

  function Release(s: Session, net: Network): Outcome {
    var r := ReleaseQueue(s.outq, s.outQuota, s.sock, s.sends, net);
    Outcome(s.(outq := r.q, outQuota := r.quota, sends := r.sends, log := s.log + r.log), r.rc)
  }

  /** `message__queue` for an outgoing message. */
  function QueueOut(s: Session, m: Message, net: Network): Outcome {
    Release(s.(outq := s.outq + [m], outLen := s.outLen + 1), net)
  }

  /** `message__queue` for an incoming message: nothing is ever released in that direction. */
  function QueueIn(s: Session, m: Message): Session {
    s.(inq := s.inq + [m], inLen := s.inLen + 1)
  }

  function ResetState(m: Message): Message {
    m.(state :=
      if m.qos == 1 then PublishQos1
      else if m.qos == 2 && m.state == WaitForPubrec then PublishQos2
      else if m.qos == 2 && m.state == WaitForPubcomp then ResendPubrel
      else m.state)
  }

  datatype ResetOut = ResetOut(q: seq<Message>, quota: int)

  /** The outgoing half of `message__reconnect_reset`. */
  function ResetOutQueue(q: seq<Message>, quota: int, quotaOnly: bool): (r: ResetOut)
    ensures |r.q| == |q|
  {
    if q == [] then
      ResetOut([], quota)
    else if quota != 0 then
      var r := ResetOutQueue(q[1..], Decrement(quota), quotaOnly);
      r.(q := [if quotaOnly then q[0] else ResetState(q[0])] + r.q)
    else
      var r := ResetOutQueue(q[1..], quota, quotaOnly);
      r.(q := [q[0].(state := Invalid)] + r.q)
  }

  datatype ResetIn = ResetIn(q: seq<Message>, quota: int)

  /** The incoming half: messages of QoS other than 2 are freed, the others cost quota. */
  function ResetInQueue(q: seq<Message>, quota: int): ResetIn {
    if q == [] then
      ResetIn([], quota)
    else if q[0].qos != 2 then
      ResetInQueue(q[1..], quota)
    else
      var r := ResetInQueue(q[1..], Decrement(quota));
      r.(q := [q[0]] + r.q)
  }

  function Reset(s: Session, quotaOnly: bool): Session {
    var i := ResetInQueue(s.inq, s.inMax);
    var o := ResetOutQueue(s.outq, s.outMax, quotaOnly);
    s.(inq := i.q, inQuota := i.quota, inLen := |s.inq|,
       outq := o.q, outQuota := o.quota, outLen := |s.outq|)
  }

  /** The position of the first message with this mid, or the length of the queue. */
  function FirstMid(q: seq<Message>, mid: nat): (i: nat)
    ensures i <= |q|
    ensures i < |q| ==> q[i].mid == mid
    ensures forall j :: 0 <= j < i ==> q[j].mid != mid
  {
    if q == [] || q[0].mid == mid then 0 else 1 + FirstMid(q[1..], mid)
  }

  function RemoveAt(q: seq<Message>, i: nat): seq<Message>
    requires i < |q|
  {
    q[..i] + q[i + 1..]
  }

  /** `message__remove` for an outgoing message (and `message__delete`, which frees it). */
  function RemoveOut(s: Session, mid: nat, qos: int): Outcome {
    var i := FirstMid(s.outq, mid);
    if i == |s.outq| then Outcome(s, NotFound)
    else if s.outq[i].qos != qos then Outcome(s, Protocol)
    else Outcome(s.(outq := RemoveAt(s.outq, i), outLen := s.outLen - 1), Success)
  }

  /** `message__remove` for an incoming message. */
  function RemoveIn(s: Session, mid: nat, qos: int): Outcome {
    var i := FirstMid(s.inq, mid);
    if i == |s.inq| then Outcome(s, NotFound)
    else if s.inq[i].qos != qos then Outcome(s, Protocol)
    else Outcome(s.(inq := RemoveAt(s.inq, i), inLen := s.inLen - 1), Success)
  }

  /** `message__out_update`. */
  function UpdateOut(s: Session, mid: nat, state: MsgState, qos: int): Outcome {
    var i := FirstMid(s.outq, mid);
    if i == |s.outq| then Outcome(s, NotFound)
    else if s.outq[i].qos != qos then Outcome(s, Protocol)
    else Outcome(s.(outq := s.outq[i := s.outq[i].(state := state)]), Success)
  }

  /** The packet `message__retry_check` sends again for a message, if any. */
  function RetryPacket(m: Message): Option<Packet> {
    match m.state
    case PublishQos1 | PublishQos2 => Some(ToPacket(m.(dup := true)))
    case WaitForPubrel => Some(Pubrec(m.mid))
    case ResendPubrel | WaitForPubcomp => Some(Pubrel(m.mid))
    case _ => None
  }

  datatype Retried = Retried(q: seq<Message>, sends: nat, log: seq<Output>)

  /** `message__retry_check`: the result of each send is ignored. */
  function RetryQueue(q: seq<Message>, sock: bool, sends: nat, net: Network): (r: Retried)
    ensures |r.q| == |q|
  {
    if q == [] then
      Retried([], sends, [])
    else
      var p := RetryPacket(q[0]);
      if p.None? then
        var r := RetryQueue(q[1..], sock, sends, net);
        r.(q := [q[0]] + r.q)
      else
        var r := RetryQueue(q[1..], sock, sends + 1, net);
        Retried([q[0].(dup := true)] + r.q, r.sends, [Sent(p.value, sock && net(sends))] + r.log)
  }

  function Retry(s: Session, net: Network): Session {
    var r := RetryQueue(s.outq, s.sock, s.sends, net);
    s.(outq := r.q, sends := r.sends, log := s.log + r.log)
  }

  // ---------- actions.c ----------

  /** One call of `mosquitto_publish`: the quality of service and everything else it carries. */
  datatype Request = Request(qos: int, body: string)

  function PublishStep(s: Session, req: Request, net: Network): Outcome {
    if req.qos < 0 || req.qos > 2 then
      Outcome(s, Inval)
    else
      var mid := NextMid(s.lastMid);
      var m := Message(s.nextId, mid, req.qos, Invalid, false, req.body);
      var s1 := s.(lastMid := mid, nextId := s.nextId + 1);
      if req.qos == 0 then Send(s1, ToPacket(m), net) else QueueOut(s1, m, net)
  }

  /** The publish calls an application makes from inside one callback, in order. */
  function RunApp(s: Session, app: seq<Request>, net: Network): Session
    decreases |app|
  {
    if app == [] then s else RunApp(PublishStep(s, app[0], net).s, app[1..], net)
  }

  // ---------- handle_*.c ----------

  /** What decoding an acknowledgement packet yields: a bad command byte, a body that is
    truncated, has an illegal reason code or trailing bytes, or a mid and a reason code. */
  datatype Ack = BadHeader | BadBody(rc: Rc) | Ack(mid: nat, reason: nat)

  /** `handle__pubackcomp`: the quota is given back before the mid is even read. */
  function PubackcompStep(s: Session, a: Ack, qos: int, app: seq<Request>, net: Network): Outcome {
    if s.cs != Active then Outcome(s, Protocol)
    else if a.BadHeader? then Outcome(s, Malformed)
    else
      var s1 := s.(outQuota := Increment(s.outQuota, s.outMax));
      if a.BadBody? then Outcome(s1, a.rc)
      else if a.mid == 0 then Outcome(s1, Protocol)
      else
        var d := RemoveOut(s1, a.mid, qos);
        if d.rc == Success then
          Outcome(Release(RunApp(d.s.(log := d.s.log + [OnPublish(a.mid)]), app, net), net).s, Success)
        else if d.rc == NotFound then
          Outcome(Release(d.s, net).s, Success)
        else
          d
  }

  /** `handle__pubrec`. */
  function PubrecStep(s: Session, a: Ack, app: seq<Request>, net: Network): Outcome {
    if s.cs != Active then Outcome(s, Protocol)
    else if a.BadHeader? then Outcome(s, Malformed)
    else if a.BadBody? then Outcome(s, a.rc)
    else if a.mid == 0 then Outcome(s, Protocol)
    else if a.reason < 0x80 || s.protocol != Mqtt5 then
      var u := UpdateOut(s, a.mid, WaitForPubcomp, 2);
      if u.rc == Success || u.rc == NotFound then Send(u.s, Pubrel(a.mid), net) else u
    else
      var d := RemoveOut(s, a.mid, 2);
      var s1 := if d.rc == Success then RunApp(d.s.(log := d.s.log + [OnPublish(a.mid)]), app, net) else d.s;
      Outcome(Release(s1.(outQuota := Increment(s1.outQuota, s1.outMax)), net).s, Success)
  }

  /** The switch on the quality of service in `handle__publish`. */
  function AcceptStep(s: Session, m: Message, app: seq<Request>, net: Network): Outcome {
    if m.qos == 0 then
      Outcome(RunApp(s.(log := s.log + [OnMessage(m)]), app, net), Success)
    else if m.qos == 1 then
      var r := Send(s.(inQuota := Increment(Decrement(s.inQuota), s.inMax)), Puback(m.mid), net);
      Outcome(RunApp(r.s.(log := r.s.log + [OnMessage(m)]), app, net), r.rc)
    else if m.qos == 2 then
      var r := Send(s.(inQuota := Decrement(s.inQuota)), Pubrec(m.mid), net);
      Outcome(QueueIn(r.s, m.(state := WaitForPubrel)), r.rc)
    else
      Outcome(s, Protocol)
  }

  /** `handle__publish`.  `bad` is a packet whose fields cannot be decoded. */
  function IncomingPublishStep(s: Session, bad: bool, qos: int, mid: nat, body: string,
                               app: seq<Request>, net: Network): Outcome {
    if s.cs != Active then Outcome(s, Protocol)
    else if bad then Outcome(s, Malformed)
    else if qos > 0 && ((s.protocol == Mqtt5 && s.inQuota == 0) || mid == 0) then Outcome(s, Protocol)
    else
      var m := Message(s.nextId, if qos > 0 then mid else 0, qos, Invalid, false, body);
      AcceptStep(s.(nextId := s.nextId + 1), m, app, net)
  }

  /** `handle__pubrel`: delivery only if the message could be removed, and a failed PUBCOMP
    removes it without delivering it. */
  function PubrelStep(s: Session, a: Ack, app: seq<Request>, net: Network): Outcome {
    if s.cs != Active then Outcome(s, Protocol)
    else if a.BadHeader? then Outcome(s, Malformed)
    else if a.BadBody? then Outcome(s, a.rc)
    else if a.mid == 0 then Outcome(s, Protocol)
    else
      var r := Send(s.(inQuota := Increment(s.inQuota, s.inMax)), Pubcomp(a.mid), net);
      var i := FirstMid(r.s.inq, a.mid);
      var d := RemoveIn(r.s, a.mid, 2);
      if r.rc != Success then
        Outcome(if d.rc == Success then d.s.(log := d.s.log + [Dropped(r.s.inq[i])]) else d.s, r.rc)
      else if d.rc == Success then
        Outcome(RunApp(d.s.(log := d.s.log + [OnMessage(r.s.inq[i])]), app, net), Success)
      else if d.rc == NotFound then
        Outcome(d.s, Success)
      else
        d
  }

  /** `handle__connack`.  `receiveMax` is the Receive Maximum property, `app` what the
    application publishes from its connect callback. */
  function ConnackStep(s: Session, bad: bool, code: nat, receiveMax: Option<nat>,
                       app: seq<Request>, net: Network): Outcome {
    if bad then Outcome(s, Malformed)
    else
      var s1 := if receiveMax.Some? then s.(outMax := receiveMax.value) else s;
      var s2 := RunApp(Reset(s1, true), app, net);
      if code == 0 then
        Outcome(Retry(if s2.cs == Disconnecting then s2 else s2.(cs := Active), net), Success)
      else
        Outcome(s2, if code <= 5 then ConnRefused else Protocol)
  }

  // ---------- connect.c, loop.c ----------

  /** `mosquitto__reconnect`.  `refused` is a failed `net__socket_connect`. */
  function ReconnectStep(s: Session, refused: bool, net: Network): Session {
    var s1 := Reset(s, false);
    if refused then
      s1.(sock := false, cs := ConnectPending)
    else
      var r := Send(s1.(sock := true, cs := Connected), Connect, net);
      if r.rc == Success then r.s else r.s.(sock := false, cs := New)
  }

  datatype Received =
    | RecvPuback(ack: Ack)
    | RecvPubcomp(ack: Ack)
    | RecvPubrec(ack: Ack)
    | RecvPubrel(ack: Ack)
    | RecvPublish(bad: bool, qos: int, mid: nat, body: string)
    | RecvConnack(bad: bool, code: nat, receiveMax: Option<nat>)

  function HandleStep(s: Session, p: Received, app: seq<Request>, net: Network): Outcome {
    match p
    case RecvPuback(a) => PubackcompStep(s, a, 1, app, net)
    case RecvPubcomp(a) => PubackcompStep(s, a, 2, app, net)
    case RecvPubrec(a) => PubrecStep(s, a, app, net)
    case RecvPubrel(a) => PubrelStep(s, a, app, net)
    case RecvPublish(bad, qos, mid, body) => IncomingPublishStep(s, bad, qos, mid, body, app, net)
    case RecvConnack(bad, code, rmax) => ConnackStep(s, bad, code, rmax, app, net)
  }

  /** `packet__read` for one complete packet, then `mosquitto__loop_rc_handle`: nothing is read
    without a socket, and an error closes it. */
  function LoopReadStep(s: Session, p: Received, app: seq<Request>, net: Network): Session {
    if !s.sock then s
    else
      var r := HandleStep(s, p, app, net);
      if r.rc == Success then r.s else r.s.(sock := false)
  }

  /** `mosquitto_disconnect`. */
  function DisconnectStep(s: Session, net: Network): Outcome {
    if s.sock then Send(s.(cs := Disconnected), Disconnect, net) else Outcome(s.(cs := Disconnected), NoConn)
  }

  datatype Event =
    | AppPublish(req: Request)
    | Receive(packet: Received, app: seq<Request>)
    | SocketLost
    | Reconnect(refused: bool)
    | AppDisconnect

  function Step(s: Session, e: Event, net: Network): Session {
    match e
    case AppPublish(req) => PublishStep(s, req, net).s
    case Receive(p, app) => LoopReadStep(s, p, app, net)
    case SocketLost => s.(sock := false)
    case Reconnect(refused) => ReconnectStep(s, refused, net)
    case AppDisconnect => DisconnectStep(s, net).s
  }

  /** The session after a whole run. */
  function Run(s: Session, events: seq<Event>, net: Network): Session
    decreases |events|
  {
    if events == [] then s else Run(Step(s, events[0], net), events[1..], net)
  }

  /** `mosquitto_reinitialise`, with the two maxima set by the application (20 by default). */
  function Initial(protocol: ProtocolVersion, outMax: nat, inMax: nat): Session {
    Session(protocol, false, New, 0, 0, [], 0, outMax, outMax, [], 0, inMax, inMax, 0, [])
  }
}
