/** Every event in one shape: what happens before the application is called, what the application
  publishes, and how the event ends.  The laws of `Calls` and `Conversation` are proved over it. */
module Exchange {
  import opened Common
  import opened MessageFlow

  /** Nothing more, a release of waiting messages (giving quota back first or not), or a retry pass. */
  datatype Ending = Plain | ThenRelease(give: bool) | ThenRetry

  /** The session when the application is called, what it publishes, how the event goes on, and
    whether the socket is closed at its end. */
  datatype Plan = Plan(first: Session, app: seq<Request>, ending: Ending, closes: bool)

  function Carry(p: Plan, net: Network): Session {
    var u := RunApp(p.first, p.app, net);
    var v :=
      match p.ending
      case Plain => u
      case ThenRelease(give) => Release(if give then Given(u) else u, net).s
      case ThenRetry => Retry(NowActive(u), net);
    if p.closes then v.(sock := false) else v
  }

  function NowActive(u: Session): Session {
    if u.cs == Disconnecting then u else u.(cs := Active)
  }

  function Still(s: Session): Plan {
    Plan(s, [], Plain, false)
  }

  function Closing(s: Session): Plan {
    Plan(s, [], Plain, true)
  }

  /** One packet handed to the network, with its result. */
  function Sends(s: Session, p: Packet, net: Network): Session {
    s.(sends := s.sends + 1, log := s.log + [Sent(p, s.sock && net(s.sends))])
  }

  function Notes(s: Session, o: Output): Session {
    s.(log := s.log + [o])
  }

  function Given(s: Session): Session {
    s.(outQuota := Increment(s.outQuota, s.outMax))
  }

  function WithoutOut(s: Session, i: nat): Session
    requires i < |s.outq|
  {
    s.(outq := RemoveAt(s.outq, i), outLen := s.outLen - 1)
  }

  function WithoutIn(s: Session, i: nat): Session
    requires i < |s.inq|
  {
    s.(inq := RemoveAt(s.inq, i), inLen := s.inLen - 1)
  }

  function AckPlan(s: Session, a: Ack, qos: int, app: seq<Request>): Plan {
    if s.cs != Active || a.BadHeader? then Closing(s)
    else
      var g := Given(s);
      if a.BadBody? then Plan(g, [], Plain, a.rc != Success)
      else if a.mid == 0 then Closing(g)
      else
        var i := FirstMid(s.outq, a.mid);
        if i == |s.outq| then Plan(g, [], ThenRelease(false), false)
        else if s.outq[i].qos != qos then Closing(g)
        else Plan(Notes(WithoutOut(g, i), OnPublish(a.mid)), app, ThenRelease(false), false)
  }

  function CommitPlan(s: Session, mid: nat, net: Network): Plan {
    var i := FirstMid(s.outq, mid);
    if i < |s.outq| && s.outq[i].qos != 2 then Closing(s)
    else
      var q := if i < |s.outq| then s.outq[i := s.outq[i].(state := WaitForPubcomp)] else s.outq;
      Plan(Sends(s.(outq := q), Pubrel(mid), net), [], Plain, !net(s.sends))
  }

  function PubrelPlan(s: Session, mid: nat, app: seq<Request>, net: Network): Plan {
    var g := Sends(s.(inQuota := Increment(s.inQuota, s.inMax)), Pubcomp(mid), net);
    var i := FirstMid(s.inq, mid);
    if i == |s.inq| then Plan(g, [], Plain, !net(s.sends))
    else if s.inq[i].qos != 2 then Closing(g)
    else if net(s.sends) then Plan(Notes(WithoutIn(g, i), OnMessage(s.inq[i])), app, Plain, false)
    else Closing(Notes(WithoutIn(g, i), Dropped(s.inq[i])))
  }

  function PublishPlan(s: Session, qos: int, mid: nat, body: string, app: seq<Request>, net: Network): Plan {
    var s1 := s.(nextId := s.nextId + 1);
    if qos == 0 then
      Plan(Notes(s1, OnMessage(Message(s.nextId, 0, 0, Invalid, false, body))), app, Plain, false)
    else if qos == 1 then
      var g := s1.(inQuota := Increment(Decrement(s.inQuota), s.inMax));
      var m := Message(s.nextId, mid, 1, Invalid, false, body);
      Plan(Notes(Sends(g, Puback(mid), net), OnMessage(m)), app, Plain, !net(s.sends))
    else if qos == 2 then
      var g := s1.(inQuota := Decrement(s.inQuota), inLen := s.inLen + 1,
                   inq := s.inq + [Message(s.nextId, mid, 2, WaitForPubrel, false, body)]);
      Plan(Sends(g, Pubrec(mid), net), [], Plain, !net(s.sends))
    else
      Closing(s1)
  }

  /** The session the connect callback finds. */
  function Connecting(s: Session, rmax: Option<nat>): Session {
    Reset(if rmax.Some? then s.(outMax := rmax.value) else s, true)
  }

  function ReceivePlan(s: Session, p: Received, app: seq<Request>, net: Network): Plan {
    match p
    case RecvPuback(a) => AckPlan(s, a, 1, app)
    case RecvPubcomp(a) => AckPlan(s, a, 2, app)
    case RecvPubrec(a) =>
      if s.cs != Active || a.BadHeader? then Closing(s)
      else if a.BadBody? then Plan(s, [], Plain, a.rc != Success)
      else if a.mid == 0 then Closing(s)
      else if a.reason < 0x80 || s.protocol != Mqtt5 then CommitPlan(s, a.mid, net)
      else
        var i := FirstMid(s.outq, a.mid);
        if i == |s.outq| || s.outq[i].qos != 2 then Plan(s, [], ThenRelease(true), false)
        else Plan(Notes(WithoutOut(s, i), OnPublish(a.mid)), app, ThenRelease(true), false)
    case RecvPubrel(a) =>
      if s.cs != Active || a.BadHeader? then Closing(s)
      else if a.BadBody? then Plan(s, [], Plain, a.rc != Success)
      else if a.mid == 0 then Closing(s)
      else PubrelPlan(s, a.mid, app, net)
    case RecvPublish(bad, qos, mid, body) =>
      if s.cs != Active || bad || (qos > 0 && ((s.protocol == Mqtt5 && s.inQuota == 0) || mid == 0)) then Closing(s)
      else PublishPlan(s, qos, mid, body, app, net)
    case RecvConnack(bad, code, rmax) =>
      if bad then Closing(s)
      else Plan(Connecting(s, rmax), app, if code == 0 then ThenRetry else Plain, code != 0)
  }

  function PlanOf(s: Session, e: Event, net: Network): Plan {
    match e
    case AppPublish(req) => Plan(s, [req], Plain, false)
    case Receive(p, app) => if s.sock then ReceivePlan(s, p, app, net) else Still(s)
    case SocketLost => Closing(s)
    case Reconnect(refused) =>
      var r := Reset(s, false);
      if refused then Closing(r.(cs := ConnectPending))
      else
        var ok := net(s.sends);
        Plan(Sends(r.(sock := true, cs := if ok then Connected else New), Connect, net), [], Plain, !ok)
    case AppDisconnect =>
      var d := s.(cs := Disconnected);
      Still(if s.sock then Sends(d, Disconnect, net) else d)
  }

  // ---------- every event has its plan ----------

  lemma RunNothing(s: Session, net: Network)
    ensures RunApp(s, [], net) == s
  {
  }

  /** The handler's outcome, the socket closed on an error, is what the plan says. */
  predicate Follows(r: Outcome, p: Plan, net: Network) {
    Carry(p, net) == if r.rc == Success then r.s else r.s.(sock := false)
  }

  lemma AckFollows(s: Session, a: Ack, qos: int, app: seq<Request>, net: Network)
    ensures Follows(PubackcompStep(s, a, qos, app, net), AckPlan(s, a, qos, app), net)
  {
    RunNothing(s, net);
    RunNothing(Given(s), net);
  }

  lemma CommitFollows(s: Session, mid: nat, reason: nat, app: seq<Request>, net: Network)
    requires s.sock && s.cs == Active && mid != 0 && (reason < 0x80 || s.protocol != Mqtt5)
    ensures Follows(PubrecStep(s, Ack(mid, reason), app, net), CommitPlan(s, mid, net), net)
  {
    RunNothing(CommitPlan(s, mid, net).first, net);
  }

  lemma PubrecFollows(s: Session, a: Ack, app: seq<Request>, net: Network)
    requires s.sock
    ensures Follows(PubrecStep(s, a, app, net), ReceivePlan(s, RecvPubrec(a), app, net), net)
  {
    RunNothing(s, net);
    if s.cs == Active && a.Ack? && a.mid != 0 && (a.reason < 0x80 || s.protocol != Mqtt5) {
      CommitFollows(s, a.mid, a.reason, app, net);
    }
  }

  lemma PubrelFollows(s: Session, a: Ack, app: seq<Request>, net: Network)
    requires s.sock
    ensures Follows(PubrelStep(s, a, app, net), ReceivePlan(s, RecvPubrel(a), app, net), net)
  {
    var p := ReceivePlan(s, RecvPubrel(a), app, net);
    if p.app == [] {
      RunNothing(p.first, net);
    }
    if s.cs == Active && a.Ack? && a.mid != 0 {
      RunNothing(p.first, net);
    }
  }

  lemma AcceptFollows(s: Session, qos: int, mid: nat, body: string, app: seq<Request>, net: Network)
    requires s.sock
    ensures var m := Message(s.nextId, if qos > 0 then mid else 0, qos, Invalid, false, body);
            Follows(AcceptStep(s.(nextId := s.nextId + 1), m, app, net), PublishPlan(s, qos, mid, body, app, net), net)
  {
    var p := PublishPlan(s, qos, mid, body, app, net);
    if qos != 0 && qos != 1 {
      RunNothing(p.first, net);
    }
  }

  lemma PublishFollows(s: Session, p: Received, app: seq<Request>, net: Network)
    requires s.sock && p.RecvPublish?
    ensures Follows(HandleStep(s, p, app, net), ReceivePlan(s, p, app, net), net)
  {
    RunNothing(s, net);
    AcceptFollows(s, p.qos, p.mid, p.body, app, net);
  }

  lemma ConnackFollows(s: Session, p: Received, app: seq<Request>, net: Network)
    requires s.sock && p.RecvConnack?
    ensures Follows(HandleStep(s, p, app, net), ReceivePlan(s, p, app, net), net)
  {
    RunNothing(s, net);
  }

  lemma StepIsPlan(s: Session, e: Event, net: Network)
    ensures Step(s, e, net) == Carry(PlanOf(s, e, net), net)
  {
    match e
    case AppPublish(req) =>
      RunNothing(PublishStep(s, req, net).s, net);
      assert [req][1..] == [];
    case Receive(p, app) =>
      if s.sock {
        match p {
          case RecvPuback(a) => AckFollows(s, a, 1, app, net);
          case RecvPubcomp(a) => AckFollows(s, a, 2, app, net);
          case RecvPubrec(a) => PubrecFollows(s, a, app, net);
          case RecvPubrel(a) => PubrelFollows(s, a, app, net);
          case RecvPublish(_, _, _, _) => PublishFollows(s, p, app, net);
          case RecvConnack(_, _, _) => ConnackFollows(s, p, app, net);
        }
      } else {
        RunNothing(s, net);
      }
    case SocketLost => RunNothing(s, net);
    case Reconnect(refused) => RunNothing(PlanOf(s, e, net).first, net);
    case AppDisconnect => RunNothing(PlanOf(s, e, net).first, net);
  }
}
