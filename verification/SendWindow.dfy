/** The send window: how many outgoing messages are in flight, over every run.

  `Lead` is the length of the longest prefix of the queue holding no message in state Invalid.
  `Covered` is what EVERY run keeps, whatever the broker sends and whichever sends fail; it is
  just enough for a reset to restore `Window`, which well-behaved runs then keep. */
module SendWindow {
  import opened Common
  import opened MessageFlow

  predicate Qos12(q: seq<Message>) {
    forall i :: 0 <= i < |q| ==> q[i].qos == 1 || q[i].qos == 2
  }

  predicate IsLead(q: seq<Message>, k: nat) {
    && k <= |q|
    && (forall i :: 0 <= i < k ==> q[i].state != Invalid)
    && (k < |q| ==> q[k].state == Invalid)
  }

  function LeadFrom(q: seq<Message>, i: nat): (k: nat)
    requires i <= |q|
    ensures i <= k <= |q|
    ensures forall j :: i <= j < k ==> q[j].state != Invalid
    ensures k < |q| ==> q[k].state == Invalid
    decreases |q| - i
  {
    if i == |q| || q[i].state == Invalid then i else LeadFrom(q, i + 1)
  }

  /** The number of messages in flight before the first one that still waits for quota. */
  function Lead(q: seq<Message>): (k: nat)
    ensures IsLead(q, k)
  {
    LeadFrom(q, 0)
  }

  predicate TailInvalid(q: seq<Message>) {
    forall i :: Lead(q) <= i < |q| ==> q[i].state == Invalid
  }

  /** With slack (0, 0): the first min(length, max) messages are in flight and the quota is at
    least what they leave.  Inside a handler the slack is one. */
  predicate Slack(q: seq<Message>, quota: int, max: nat, a: nat, b: nat) {
    && Qos12(q)
    && 0 <= quota <= max
    && Lead(q) >= Min(|q|, max - a)
    && quota + b >= max - Lead(q)
  }

  predicate Covered(s: Session) {
    Slack(s.outq, s.outQuota, s.outMax, 0, 0)
  }

  /** The messages in flight are a prefix, and they and the quota make up max less d. */
  predicate Exact(q: seq<Message>, quota: int, max: nat, d: int) {
    && Qos12(q)
    && TailInvalid(q)
    && 0 <= quota
    && quota == max - Lead(q) - d
  }

  /** Exactly min(length, max) messages are in flight, they are the oldest ones, and the quota
    is what they leave. */
  predicate Window(s: Session) {
    && Exact(s.outq, s.outQuota, s.outMax, 0)
    && Lead(s.outq) == Min(|s.outq|, s.outMax)
  }

  /** Every send attempt from number n on succeeds as long as the socket is open. */
  ghost predicate Reliable(net: Network, n: nat) {
    forall k: nat :: k >= n ==> net(k)
  }

  // ---------- Lead under the queue operations ----------

  lemma LeadUnique(q: seq<Message>, k: nat)
    requires IsLead(q, k)
    ensures Lead(q) == k
  {
    var l := Lead(q);
    assert l < |q| ==> q[l].state == Invalid;
    assert k < |q| ==> q[k].state == Invalid;
  }

  lemma {:induction false} LeadAtLeast(q: seq<Message>, k: nat)
    requires k <= |q|
    requires forall i :: 0 <= i < k ==> q[i].state != Invalid
    ensures Lead(q) >= k
  {
    var l := Lead(q);
    assert l < |q| ==> q[l].state == Invalid;
  }

  lemma LeadAppend(q: seq<Message>, m: Message)
    requires m.state == Invalid
    ensures Lead(q + [m]) == Lead(q)
    ensures TailInvalid(q) ==> TailInvalid(q + [m])
  {
    LeadUnique(q + [m], Lead(q));
  }

  lemma LeadRemove(q: seq<Message>, i: nat)
    requires i < |q|
    ensures i < Lead(q) ==> Lead(RemoveAt(q, i)) == Lead(q) - 1
    ensures i >= Lead(q) ==> Lead(RemoveAt(q, i)) >= Lead(q)
    ensures Qos12(q) ==> Qos12(RemoveAt(q, i))
  {
    var r, l := RemoveAt(q, i), Lead(q);
    assert forall j :: 0 <= j < |r| ==> r[j] == if j < i then q[j] else q[j + 1];
    if i < l {
      LeadUnique(r, l - 1);
    } else {
      LeadAtLeast(r, l);
    }
  }

  lemma TailRemove(q: seq<Message>, i: nat)
    requires i < |q| && TailInvalid(q)
    ensures TailInvalid(RemoveAt(q, i))
    ensures i >= Lead(q) ==> Lead(RemoveAt(q, i)) == Lead(q)
  {
    var r, l := RemoveAt(q, i), Lead(q);
    assert forall j :: 0 <= j < |r| ==> r[j] == if j < i then q[j] else q[j + 1];
    LeadUnique(r, if i < l then l - 1 else l);
  }

  lemma LeadUpdate(q: seq<Message>, i: nat, state: MsgState)
    requires i < |q| && state != Invalid
    ensures Lead(q[i := q[i].(state := state)]) >= Lead(q)
    ensures q[i].state != Invalid ==> Lead(q[i := q[i].(state := state)]) == Lead(q)
    ensures q[i].state != Invalid && TailInvalid(q) ==> TailInvalid(q[i := q[i].(state := state)])
  {
    var r := q[i := q[i].(state := state)];
    LeadAtLeast(r, Lead(q));
    if q[i].state != Invalid {
      LeadUnique(r, Lead(q));
    }
  }

  lemma LeadCons(m: Message, q: seq<Message>)
    ensures Lead([m] + q) == if m.state == Invalid then 0 else 1 + Lead(q)
    ensures m.state != Invalid ==> (TailInvalid([m] + q) <==> TailInvalid(q))
    ensures m.state == Invalid && TailInvalid([m] + q) ==> TailInvalid(q) && Lead(q) == 0
  {
    var r := [m] + q;
    LeadUnique(r, if m.state == Invalid then 0 else 1 + Lead(q));
    assert forall i :: 0 <= i < |q| ==> q[i] == r[i + 1];
    if m.state == Invalid && TailInvalid(r) {
      LeadUnique(q, 0);
    }
  }

  // ---------- message__release_to_inflight ----------

  /** Whatever fails, releasing never shortens the lead, pays for each message released, and
    gets at least one more message in flight if there is quota and a message waits. */
  lemma {:induction false} ReleaseGrowsLead(q: seq<Message>, quota: int, sock: bool, sends: nat, net: Network)
    requires Qos12(q) && quota >= 0
    ensures var r := ReleaseQueue(q, quota, sock, sends, net);
            && Qos12(r.q)
            && 0 <= r.quota <= quota
            && Lead(r.q) >= Lead(q)
            && r.quota + Lead(r.q) >= quota + Lead(q)
            && (quota > 0 && Lead(q) < |q| ==> Lead(r.q) > Lead(q))
    decreases |q|
  {
    if q != [] && quota > 0 {
      assert q == [q[0]] + q[1..];
      LeadCons(q[0], q[1..]);
      if q[0].state == Invalid {
        var m := Activated(q[0]);
        if sock && net(sends) {
          ReleaseGrowsLead(q[1..], Decrement(quota), sock, sends + 1, net);
          LeadCons(m, ReleaseQueue(q[1..], Decrement(quota), sock, sends + 1, net).q);
        } else {
          LeadCons(m, q[1..]);
        }
      } else {
        ReleaseGrowsLead(q[1..], quota, sock, sends, net);
        LeadCons(q[0], ReleaseQueue(q[1..], quota, sock, sends, net).q);
      }
    }
  }

  /** The quota has been spent on as many waiting messages as it reaches. */
  predicate Filled(q: seq<Message>, quota: int, sends: nat, r: Released) {
    && r.rc == Success
    && r.sends >= sends
    && TailInvalid(r.q)
    && Lead(r.q) == Lead(q) + Min(|q| - Lead(q), quota)
    && r.quota == quota - (Lead(r.q) - Lead(q))
  }

  lemma FilledBySend(m: Message, t: seq<Message>, quota: int, sends: nat, net: Network)
    requires (m.qos == 1 || m.qos == 2) && m.state == Invalid && quota > 0 && net(sends)
    requires Lead(t) == 0
    requires Filled(t, quota - 1, sends + 1, ReleaseQueue(t, quota - 1, true, sends + 1, net))
    ensures Filled([m] + t, quota, sends, ReleaseQueue([m] + t, quota, true, sends, net))
  {
    LeadCons(m, t);
    LeadCons(Activated(m), ReleaseQueue(t, quota - 1, true, sends + 1, net).q);
    assert ([m] + t)[1..] == t;
  }

  lemma FilledBySkip(m: Message, t: seq<Message>, quota: int, sends: nat, net: Network)
    requires m.state != Invalid && quota > 0
    requires Filled(t, quota, sends, ReleaseQueue(t, quota, true, sends, net))
    ensures Filled([m] + t, quota, sends, ReleaseQueue([m] + t, quota, true, sends, net))
  {
    LeadCons(m, t);
    LeadCons(m, ReleaseQueue(t, quota, true, sends, net).q);
    assert ([m] + t)[1..] == t;
  }

  /** When no send fails, releasing fills the window as far as the quota reaches. */
  lemma {:induction false} ReleaseFillsWindow(q: seq<Message>, quota: int, sends: nat, net: Network)
    requires Qos12(q) && quota >= 0 && TailInvalid(q) && Reliable(net, sends)
    ensures Filled(q, quota, sends, ReleaseQueue(q, quota, true, sends, net))
    decreases |q|
  {
    if q != [] && quota > 0 {
      var m, t := q[0], q[1..];
      assert q == [m] + t;
      LeadCons(m, t);
      if m.state == Invalid {
        ReleaseFillsWindow(t, quota - 1, sends + 1, net);
        FilledBySend(m, t, quota, sends, net);
      } else {
        ReleaseFillsWindow(t, quota, sends, net);
        FilledBySkip(m, t, quota, sends, net);
      }
    }
  }

  lemma ReleaseSlack(s: Session, net: Network)
    requires Slack(s.outq, s.outQuota, s.outMax, 1, 0)
    ensures Covered(Release(s, net).s)
  {
    ReleaseGrowsLead(s.outq, s.outQuota, s.sock, s.sends, net);
  }

  lemma ReleaseExact(s: Session, d: int, net: Network)
    requires s.sock && Reliable(net, s.sends)
    requires Exact(s.outq, s.outQuota, s.outMax, d)
    ensures var t := Release(s, net).s;
            && Exact(t.outq, t.outQuota, t.outMax, d)
            && Lead(t.outq) == Min(|t.outq|, t.outMax - d)
            && t.sends >= s.sends
            && Lead(t.outq) >= Lead(s.outq)
  {
    ReleaseGrowsLead(s.outq, s.outQuota, s.sock, s.sends, net);
    ReleaseFillsWindow(s.outq, s.outQuota, s.sends, net);
  }

  // ---------- message__reconnect_reset ----------

  /** Reset keeps the first min(length, quota) messages in place, marks all others Invalid, and
    leaves the quota the kept ones do not use. */
  lemma {:induction false} ResetPositions(q: seq<Message>, quota: nat, quotaOnly: bool)
    ensures var r := ResetOutQueue(q, quota, quotaOnly);
            var k := Min(|q|, quota);
            && r.quota == quota - k
            && (forall i :: 0 <= i < k ==> r.q[i] == if quotaOnly then q[i] else ResetState(q[i]))
            && (forall i :: k <= i < |q| ==> r.q[i] == q[i].(state := Invalid))
    decreases |q|
  {
    if q != [] {
      var t := q[1..];
      var rest := ResetOutQueue(t, Decrement(quota), quotaOnly);
      ResetPositions(t, Decrement(quota), quotaOnly);
      var r := ResetOutQueue(q, quota, quotaOnly);
      assert r.q[1..] == rest.q;
      assert forall i :: 1 <= i < |q| ==> q[i] == t[i - 1] && r.q[i] == rest.q[i - 1];
    }
  }

  /** The reset that runs on CONNACK establishes the window if and only if the first
    min(length, max) messages were already in flight. */
  lemma QuotaResetWindowIff(s: Session)
    requires Qos12(s.outq)
    ensures Window(Reset(s, true)) <==> Lead(s.outq) >= Min(|s.outq|, s.outMax)
  {
    var q := s.outq;
    var k := Min(|q|, s.outMax);
    var t := Reset(s, true);
    ResetPositions(q, s.outMax, true);
    if Lead(q) >= k {
      LeadUnique(t.outq, k);
    } else {
      assert t.outq[Lead(q)].state == Invalid;
      LeadUnique(t.outq, Lead(q));
    }
  }

  /** The reset that runs on reconnect. */
  lemma FullResetWindow(s: Session)
    requires Qos12(s.outq) && Lead(s.outq) >= Min(|s.outq|, s.outMax)
    ensures Window(Reset(s, false))
  {
    ResetPositions(s.outq, s.outMax, false);
    LeadUnique(Reset(s, false).outq, Min(|s.outq|, s.outMax));
  }

  lemma WindowIsCovered(s: Session)
    requires Window(s)
    ensures Covered(s)
  {
  }

  // ---------- publishing ----------

  lemma PublishSlack(s: Session, req: Request, net: Network, a: nat, b: nat)
    requires b <= a && Slack(s.outq, s.outQuota, s.outMax, a, b)
    ensures var t := PublishStep(s, req, net).s;
            Slack(t.outq, t.outQuota, t.outMax, a, b) && t.outMax == s.outMax && t.cs == s.cs && t.sock == s.sock
  {
    if 1 <= req.qos <= 2 {
      var m := Message(s.nextId, NextMid(s.lastMid), req.qos, Invalid, false, req.body);
      LeadAppend(s.outq, m);
      ReleaseGrowsLead(s.outq + [m], s.outQuota, s.sock, s.sends, net);
    }
  }

  lemma {:induction false} RunAppSlack(s: Session, app: seq<Request>, net: Network, a: nat, b: nat)
    requires b <= a && Slack(s.outq, s.outQuota, s.outMax, a, b)
    ensures var t := RunApp(s, app, net);
            Slack(t.outq, t.outQuota, t.outMax, a, b) && t.outMax == s.outMax && t.cs == s.cs && t.sock == s.sock
    decreases |app|
  {
    if app != [] {
      PublishSlack(s, app[0], net, a, b);
      RunAppSlack(PublishStep(s, app[0], net).s, app[1..], net, a, b);
    }
  }

  lemma PublishExact(s: Session, req: Request, net: Network, d: int)
    requires s.sock && Reliable(net, s.sends)
    requires Exact(s.outq, s.outQuota, s.outMax, d)
    ensures var t := PublishStep(s, req, net).s;
            && Exact(t.outq, t.outQuota, t.outMax, d)
            && t.sock && t.outMax == s.outMax && t.cs == s.cs && t.sends >= s.sends
            && Lead(t.outq) >= Lead(s.outq)
            && (Lead(s.outq) == Min(|s.outq|, s.outMax - d) ==> Lead(t.outq) == Min(|t.outq|, t.outMax - d))
  {
    if 1 <= req.qos <= 2 {
      var m := Message(s.nextId, NextMid(s.lastMid), req.qos, Invalid, false, req.body);
      LeadAppend(s.outq, m);
      ReleaseExact(s.(outq := s.outq + [m]), d, net);
    }
  }

  lemma {:induction false} RunAppExact(s: Session, app: seq<Request>, net: Network, d: int)
    requires s.sock && Reliable(net, s.sends)
    requires Exact(s.outq, s.outQuota, s.outMax, d)
    ensures var t := RunApp(s, app, net);
            && Exact(t.outq, t.outQuota, t.outMax, d)
            && t.sock && t.outMax == s.outMax && t.cs == s.cs && t.sends >= s.sends
            && Lead(t.outq) >= Lead(s.outq)
            && (Lead(s.outq) == Min(|s.outq|, s.outMax - d) ==> Lead(t.outq) == Min(|t.outq|, t.outMax - d))
    decreases |app|
  {
    if app != [] {
      PublishExact(s, app[0], net, d);
      RunAppExact(PublishStep(s, app[0], net).s, app[1..], net, d);
    }
  }

  // ---------- every step of every run ----------

  /** A CONNACK does not announce a Receive Maximum above what is already in flight, unless
    everything queued is in flight.  It holds of every CONNACK that leaves the maximum alone. */
  predicate MaximumOk(s: Session, p: Received) {
    p.RecvConnack? && !p.bad && p.receiveMax.Some? ==>
      Lead(s.outq) >= Min(|s.outq|, p.receiveMax.value)
  }

  predicate EventOk(s: Session, e: Event) {
    e.Receive? ==> MaximumOk(s, e.packet)
  }

  lemma AcknowledgedCovered(s: Session, i: nat, d: Session, app: seq<Request>, net: Network)
    requires Covered(s) && i < |s.outq| && d.outMax == s.outMax
    requires d.outq == RemoveAt(s.outq, i) && d.outQuota == Increment(s.outQuota, s.outMax)
    ensures Covered(Release(RunApp(d, app, net), net).s)
  {
    LeadRemove(s.outq, i);
    RunAppSlack(d, app, net, 1, 0);
    ReleaseSlack(RunApp(d, app, net), net);
  }

  lemma PubackcompCovered(s: Session, a: Ack, qos: int, app: seq<Request>, net: Network)
    requires Covered(s)
    ensures Covered(PubackcompStep(s, a, qos, app, net).s)
  {
    if s.cs == Active && a.Ack? && a.mid != 0 {
      var d := RemoveOut(s.(outQuota := Increment(s.outQuota, s.outMax)), a.mid, qos);
      if d.rc == Success {
        AcknowledgedCovered(s, FirstMid(s.outq, a.mid), d.s.(log := d.s.log + [OnPublish(a.mid)]), app, net);
      } else if d.rc == NotFound {
        ReleaseSlack(d.s, net);
      }
    }
  }

  lemma CommittedCovered(s: Session, mid: nat)
    requires Covered(s)
    ensures Covered(UpdateOut(s, mid, WaitForPubcomp, 2).s)
  {
    var i := FirstMid(s.outq, mid);
    if i < |s.outq| {
      LeadUpdate(s.outq, i, WaitForPubcomp);
    }
  }

  lemma RejectedCovered(s: Session, mid: nat, app: seq<Request>, net: Network)
    requires Covered(s)
    ensures var d := RemoveOut(s, mid, 2);
            var t := if d.rc == Success then RunApp(d.s.(log := d.s.log + [OnPublish(mid)]), app, net) else d.s;
            Covered(Release(t.(outQuota := Increment(t.outQuota, t.outMax)), net).s)
  {
    var d := RemoveOut(s, mid, 2);
    var t := d.s;
    if d.rc == Success {
      LeadRemove(s.outq, FirstMid(s.outq, mid));
      var d1 := d.s.(log := d.s.log + [OnPublish(mid)]);
      RunAppSlack(d1, app, net, 1, 1);
      t := RunApp(d1, app, net);
    }
    ReleaseSlack(t.(outQuota := Increment(t.outQuota, t.outMax)), net);
  }

  lemma PubrecCovered(s: Session, a: Ack, app: seq<Request>, net: Network)
    requires Covered(s)
    ensures Covered(PubrecStep(s, a, app, net).s)
  {
    if s.cs == Active && a.Ack? && a.mid != 0 {
      if a.reason < 0x80 || s.protocol != Mqtt5 {
        CommittedCovered(s, a.mid);
      } else {
        RejectedCovered(s, a.mid, app, net);
      }
    }
  }

  lemma AcceptCovered(s: Session, m: Message, app: seq<Request>, net: Network)
    requires Covered(s)
    ensures Covered(AcceptStep(s, m, app, net).s)
  {
    if m.qos == 0 {
      RunAppSlack(s.(log := s.log + [OnMessage(m)]), app, net, 0, 0);
    } else if m.qos == 1 {
      var r := Send(s.(inQuota := Increment(Decrement(s.inQuota), s.inMax)), Puback(m.mid), net);
      RunAppSlack(r.s.(log := r.s.log + [OnMessage(m)]), app, net, 0, 0);
    }
  }

  lemma IncomingPublishCovered(s: Session, p: Received, app: seq<Request>, net: Network)
    requires Covered(s) && p.RecvPublish?
    ensures Covered(HandleStep(s, p, app, net).s)
  {
    var m := Message(s.nextId, if p.qos > 0 then p.mid else 0, p.qos, Invalid, false, p.body);
    var s1 := s.(nextId := s.nextId + 1);
    AcceptCovered(s1, m, app, net);
    var t := HandleStep(s, p, app, net).s;
    assert t == s || t == AcceptStep(s1, m, app, net).s;
  }

  lemma PubrelCovered(s: Session, a: Ack, app: seq<Request>, net: Network)
    requires Covered(s)
    ensures Covered(PubrelStep(s, a, app, net).s)
  {
    if s.cs == Active && a.Ack? && a.mid != 0 {
      var r := Send(s.(inQuota := Increment(s.inQuota, s.inMax)), Pubcomp(a.mid), net);
      var d := RemoveIn(r.s, a.mid, 2);
      if d.rc == Success && r.rc == Success {
        RunAppSlack(d.s.(log := d.s.log + [OnMessage(r.s.inq[FirstMid(r.s.inq, a.mid)])]), app, net, 0, 0);
      }
    }
  }

  lemma {:induction false} RetryKeepsStates(q: seq<Message>, sock: bool, sends: nat, net: Network)
    ensures var r := RetryQueue(q, sock, sends, net);
            && r.sends >= sends
            && forall i :: 0 <= i < |q| ==> r.q[i] == q[i].(dup := r.q[i].dup)
    decreases |q|
  {
    if q != [] {
      var t := q[1..];
      var next := if RetryPacket(q[0]).None? then sends else sends + 1;
      var rest := RetryQueue(t, sock, next, net);
      RetryKeepsStates(t, sock, next, net);
      var r := RetryQueue(q, sock, sends, net);
      assert r.q[1..] == rest.q;
      assert forall i :: 1 <= i < |q| ==> r.q[i] == rest.q[i - 1] && q[i] == t[i - 1];
    }
  }

  lemma RetryKeepsLead(s: Session, net: Network)
    ensures Lead(Retry(s, net).outq) == Lead(s.outq)
    ensures TailInvalid(s.outq) ==> TailInvalid(Retry(s, net).outq)
    ensures Qos12(s.outq) ==> Qos12(Retry(s, net).outq)
  {
    RetryKeepsStates(s.outq, s.sock, s.sends, net);
    LeadUnique(Retry(s, net).outq, Lead(s.outq));
  }

  lemma ConnackCovered(s: Session, bad: bool, code: nat, rmax: Option<nat>, app: seq<Request>, net: Network)
    requires Covered(s) && MaximumOk(s, RecvConnack(bad, code, rmax))
    ensures Covered(ConnackStep(s, bad, code, rmax, app, net).s)
  {
    if !bad {
      var s1 := if rmax.Some? then s.(outMax := rmax.value) else s;
      QuotaResetWindowIff(s1);
      RunAppSlack(Reset(s1, true), app, net, 0, 0);
      var s2 := RunApp(Reset(s1, true), app, net);
      RetryKeepsLead(if s2.cs == Disconnecting then s2 else s2.(cs := Active), net);
    }
  }

  /** One step of any kind, with any packet and any pattern of failing sends. */
  lemma StepCovered(s: Session, e: Event, net: Network)
    requires Covered(s) && EventOk(s, e)
    ensures Covered(Step(s, e, net))
  {
    match e
    case AppPublish(req) => PublishSlack(s, req, net, 0, 0);
    case Receive(p, app) =>
      match p {
        case RecvPuback(a) => PubackcompCovered(s, a, 1, app, net);
        case RecvPubcomp(a) => PubackcompCovered(s, a, 2, app, net);
        case RecvPubrec(a) => PubrecCovered(s, a, app, net);
        case RecvConnack(bad, code, rmax) => ConnackCovered(s, bad, code, rmax, app, net);
        case RecvPubrel(a) => PubrelCovered(s, a, app, net);
        case RecvPublish(_, _, _, _) => IncomingPublishCovered(s, p, app, net);
      }
    case SocketLost =>
    case Reconnect(refused) => FullResetWindow(s);
    case AppDisconnect =>
  }

  predicate RunOk(s: Session, events: seq<Event>, net: Network)
    decreases |events|
  {
    events == [] || (EventOk(s, events[0]) && RunOk(Step(s, events[0], net), events[1..], net))
  }

  /** Safety over whole runs: from the initial session, whatever the application publishes and
    whatever the broker and the network do, the oldest min(length, maximum) queued messages are in
    flight and the quota never leaves 0..maximum. */
  lemma {:induction false} RunCovered(s: Session, events: seq<Event>, net: Network)
    requires Covered(s) && RunOk(s, events, net)
    ensures Covered(Run(s, events, net))
    decreases |events|
  {
    if events != [] {
      StepCovered(s, events[0], net);
      RunCovered(Step(s, events[0], net), events[1..], net);
    }
  }

  /** Recovery: after any run at all, a reconnect attempt restores the window exactly, and so does
    the reset that a CONNACK triggers. */
  lemma RecoveryRestoresWindow(protocol: ProtocolVersion, outMax: nat, inMax: nat,
                               past: seq<Event>, net: Network, refused: bool)
    requires RunOk(Initial(protocol, outMax, inMax), past, net)
    ensures var s := Run(Initial(protocol, outMax, inMax), past, net);
            Window(Step(s, Reconnect(refused), net)) && Window(Reset(s, true))
  {
    var s := Run(Initial(protocol, outMax, inMax), past, net);
    RunCovered(Initial(protocol, outMax, inMax), past, net);
    FullResetWindow(s);
    QuotaResetWindowIff(s);
  }

  // ---------- runs with a well-behaved broker and network ----------

  /** The message a well-formed acknowledgement is looked up as. */
  predicate NamesInFlight(s: Session, mid: nat, qos: int) {
    var i := FirstMid(s.outq, mid);
    i < |s.outq| && s.outq[i].qos == qos && s.outq[i].state != Invalid
  }

  predicate WrongQos(s: Session, mid: nat, qos: int) {
    var i := FirstMid(s.outq, mid);
    i < |s.outq| && s.outq[i].qos != qos
  }

  /** PUBACK or PUBCOMP: it names a message in flight of its own QoS, or it is answered with an
    error (which closes the connection), or nothing at all is in flight and it names nothing. */
  predicate FairAck(s: Session, a: Ack, qos: int) {
    a.Ack? && a.mid != 0 && s.cs == Active ==>
      || NamesInFlight(s, a.mid, qos)
      || WrongQos(s, a.mid, qos)
      || (s.outQuota == s.outMax && FirstMid(s.outq, a.mid) == |s.outq|)
  }

  /** PUBREC: a success may also be for an unknown mid; a failure is like an acknowledgement,
    except that a wrong QoS is not answered with an error. */
  predicate FairPubrec(s: Session, a: Ack) {
    a.Ack? && a.mid != 0 && s.cs == Active ==>
      if a.reason < 0x80 || s.protocol != Mqtt5 then
        || NamesInFlight(s, a.mid, 2)
        || WrongQos(s, a.mid, 2)
        || FirstMid(s.outq, a.mid) == |s.outq|
      else
        || NamesInFlight(s, a.mid, 2)
        || (s.outQuota == s.outMax && FirstMid(s.outq, a.mid) == |s.outq|)
  }

  predicate Fair(s: Session, e: Event) {
    && EventOk(s, e)
    && (e.Receive? ==>
          match e.packet
          case RecvPuback(a) => FairAck(s, a, 1)
          case RecvPubcomp(a) => FairAck(s, a, 2)
          case RecvPubrec(a) => FairPubrec(s, a)
          case _ => true)
  }

  /** With the socket open the window is exact; without it, `Covered` remains. */
  predicate WindowWhileOpen(s: Session) {
    Covered(s) && (s.sock ==> Window(s))
  }

  predicate ErrorOrWindow(r: Outcome) {
    r.rc == Success ==> Window(r.s)
  }

  lemma {:induction false} PubackcompRemoved(s: Session, mid: nat, qos: int, app: seq<Request>, net: Network)
    requires s.sock && s.cs == Active && Reliable(net, s.sends) && Window(s) && mid != 0
    requires var i := FirstMid(s.outq, mid); i < |s.outq| && s.outq[i].qos == qos
    ensures PubackcompStep(s, Ack(mid, 0), qos, app, net).rc == Success
    ensures var t := PubackcompStep(s, Ack(mid, 0), qos, app, net).s;
            s.outMax > 0 ==> (Window(t) <==> NamesInFlight(s, mid, qos))
    ensures NamesInFlight(s, mid, qos) ==> Window(PubackcompStep(s, Ack(mid, 0), qos, app, net).s)
  {
    var i := FirstMid(s.outq, mid);
    var s1 := s.(outQuota := Increment(s.outQuota, s.outMax));
    LeadRemove(s.outq, i);
    TailRemove(s.outq, i);
    var d := RemoveOut(s1, mid, qos);
    var d1 := d.s.(log := d.s.log + [OnPublish(mid)]);
    if NamesInFlight(s, mid, qos) {
      RunAppExact(d1, app, net, 0);
      ReleaseExact(RunApp(d1, app, net), 0, net);
    } else if s.outMax > 0 {
      RunAppExact(d1, app, net, -1);
      ReleaseExact(RunApp(d1, app, net), -1, net);
    }
  }

  lemma PubackcompNotFound(s: Session, mid: nat, qos: int, app: seq<Request>, net: Network)
    requires s.sock && s.cs == Active && Reliable(net, s.sends) && Window(s) && mid != 0
    requires FirstMid(s.outq, mid) == |s.outq|
    ensures PubackcompStep(s, Ack(mid, 0), qos, app, net).rc == Success
    ensures Window(PubackcompStep(s, Ack(mid, 0), qos, app, net).s) <==> s.outQuota == s.outMax
  {
    var s1 := s.(outQuota := Increment(s.outQuota, s.outMax));
    ReleaseExact(s1, if s.outQuota == s.outMax then 0 else -1, net);
  }

  /** Exactly which PUBACK and PUBCOMP packets keep the window: in a session whose window is
    exact, the handler ends in an error or in an exact window if and only if the packet is fair.
    The quota is given back before the mid is looked up, so a stray acknowledgement overfills
    the window whenever anything is in flight. */
  lemma AckKeepsWindowIff(s: Session, a: Ack, qos: int, app: seq<Request>, net: Network)
    requires s.sock && Reliable(net, s.sends) && Window(s) && s.outMax > 0
    requires a.BadBody? ==> a.rc != Success
    ensures ErrorOrWindow(PubackcompStep(s, a, qos, app, net)) <==> FairAck(s, a, qos)
  {
    if a.Ack? && a.mid != 0 && s.cs == Active {
      var i := FirstMid(s.outq, a.mid);
      assert PubackcompStep(s, a, qos, app, net) == PubackcompStep(s, Ack(a.mid, 0), qos, app, net);
      if i == |s.outq| {
        PubackcompNotFound(s, a.mid, qos, app, net);
      } else if s.outq[i].qos == qos {
        PubackcompRemoved(s, a.mid, qos, app, net);
      }
    }
  }

  lemma PubrecSuccessIff(s: Session, mid: nat, reason: nat, app: seq<Request>, net: Network)
    requires s.sock && s.cs == Active && Reliable(net, s.sends) && Window(s) && mid != 0
    requires reason < 0x80 || s.protocol != Mqtt5
    ensures ErrorOrWindow(PubrecStep(s, Ack(mid, reason), app, net)) <==> FairPubrec(s, Ack(mid, reason))
  {
    var i := FirstMid(s.outq, mid);
    if i < |s.outq| && s.outq[i].qos == 2 {
      LeadUpdate(s.outq, i, WaitForPubcomp);
      var q := s.outq[i := s.outq[i].(state := WaitForPubcomp)];
      assert s.outq[i].state == Invalid ==> q[i].state == WaitForPubcomp && i >= s.outMax;
    }
  }

  lemma PubrecFailureIff(s: Session, mid: nat, reason: nat, app: seq<Request>, net: Network)
    requires s.sock && s.cs == Active && Reliable(net, s.sends) && Window(s) && mid != 0 && s.outMax > 0
    requires reason >= 0x80 && s.protocol == Mqtt5
    ensures PubrecStep(s, Ack(mid, reason), app, net).rc == Success
    ensures Window(PubrecStep(s, Ack(mid, reason), app, net).s) <==> FairPubrec(s, Ack(mid, reason))
  {
    var i := FirstMid(s.outq, mid);
    var d := RemoveOut(s, mid, 2);
    if d.rc == Success {
      LeadRemove(s.outq, i);
      TailRemove(s.outq, i);
      var d1 := d.s.(log := d.s.log + [OnPublish(mid)]);
      var gap := if s.outq[i].state == Invalid then 0 else 1;
      RunAppExact(d1, app, net, gap);
      var s1 := RunApp(d1, app, net);
      ReleaseExact(s1.(outQuota := Increment(s1.outQuota, s1.outMax)), gap - 1, net);
    } else {
      ReleaseExact(s.(outQuota := Increment(s.outQuota, s.outMax)), if s.outQuota == s.outMax then 0 else -1, net);
    }
  }

  /** Exactly which PUBREC packets keep the window. */
  lemma PubrecKeepsWindowIff(s: Session, a: Ack, app: seq<Request>, net: Network)
    requires s.sock && Reliable(net, s.sends) && Window(s) && s.outMax > 0
    requires a.BadBody? ==> a.rc != Success
    ensures ErrorOrWindow(PubrecStep(s, a, app, net)) <==> FairPubrec(s, a)
  {
    if a.Ack? && a.mid != 0 && s.cs == Active {
      if a.reason < 0x80 || s.protocol != Mqtt5 {
        PubrecSuccessIff(s, a.mid, a.reason, app, net);
      } else {
        PubrecFailureIff(s, a.mid, a.reason, app, net);
      }
    }
  }

  /** Nothing the window speaks of is different. */
  predicate SameOutgoing(s: Session, t: Session) {
    t.outq == s.outq && t.outQuota == s.outQuota && t.outMax == s.outMax && t.sock == s.sock
  }

  lemma ThenRunApp(s: Session, t: Session, app: seq<Request>, net: Network)
    requires s.sock && Reliable(net, 0) && Window(s) && SameOutgoing(s, t)
    ensures Window(RunApp(t, app, net))
  {
    RunAppExact(t, app, net, 0);
  }

  lemma SameWindow(s: Session, t: Session)
    requires Window(s) && SameOutgoing(s, t)
    ensures Window(t)
  {
  }

  lemma AcceptWindow(s: Session, m: Message, app: seq<Request>, net: Network)
    requires s.sock && Reliable(net, 0) && Window(s)
    ensures Window(AcceptStep(s, m, app, net).s)
  {
    if m.qos == 0 {
      ThenRunApp(s, s.(log := s.log + [OnMessage(m)]), app, net);
    } else if m.qos == 1 {
      var r := Send(s.(inQuota := Increment(Decrement(s.inQuota), s.inMax)), Puback(m.mid), net);
      ThenRunApp(s, r.s.(log := r.s.log + [OnMessage(m)]), app, net);
    } else {
      SameWindow(s, AcceptStep(s, m, app, net).s);
    }
  }

  lemma IncomingPublishWindow(s: Session, p: Received, app: seq<Request>, net: Network)
    requires s.sock && Reliable(net, 0) && Window(s) && p.RecvPublish?
    ensures Window(HandleStep(s, p, app, net).s)
  {
    var m := Message(s.nextId, if p.qos > 0 then p.mid else 0, p.qos, Invalid, false, p.body);
    var s1 := s.(nextId := s.nextId + 1);
    SameWindow(s, s1);
    AcceptWindow(s1, m, app, net);
    var t := HandleStep(s, p, app, net).s;
    assert t == s || t == AcceptStep(s1, m, app, net).s;
  }

  lemma PubrelWindow(s: Session, a: Ack, app: seq<Request>, net: Network)
    requires s.sock && Reliable(net, 0) && Window(s)
    ensures Window(PubrelStep(s, a, app, net).s)
  {
    var t := PubrelStep(s, a, app, net).s;
    if s.cs == Active && a.Ack? && a.mid != 0 {
      var r := Send(s.(inQuota := Increment(s.inQuota, s.inMax)), Pubcomp(a.mid), net);
      var d := RemoveIn(r.s, a.mid, 2);
      if d.rc == Success && r.rc == Success {
        ThenRunApp(s, d.s.(log := d.s.log + [OnMessage(r.s.inq[FirstMid(r.s.inq, a.mid)])]), app, net);
      } else {
        SameWindow(s, t);
      }
    } else {
      SameWindow(s, t);
    }
  }

  lemma ConnackWindow(s: Session, code: nat, rmax: Option<nat>, app: seq<Request>, net: Network)
    requires s.sock && Reliable(net, 0) && Covered(s) && MaximumOk(s, RecvConnack(false, code, rmax))
    ensures Window(ConnackStep(s, false, code, rmax, app, net).s)
  {
    var s1 := if rmax.Some? then s.(outMax := rmax.value) else s;
    QuotaResetWindowIff(s1);
    RunAppExact(Reset(s1, true), app, net, 0);
    var s2 := RunApp(Reset(s1, true), app, net);
    RetryKeepsLead(if s2.cs == Disconnecting then s2 else s2.(cs := Active), net);
  }

  /** A CONNACK restores the window from any session at all if and only if what it makes the
    maximum is covered by messages already in flight.  A raised Receive Maximum is not: messages
    that were Invalid are charged to the quota but stay Invalid and are not sent. */
  lemma ConnackRestoresWindowIff(s: Session, code: nat, rmax: Option<nat>, net: Network)
    requires Qos12(s.outq)
    ensures var max := if rmax.Some? then rmax.value else s.outMax;
            Window(ConnackStep(s, false, code, rmax, [], net).s) <==> Lead(s.outq) >= Min(|s.outq|, max)
  {
    var s1 := if rmax.Some? then s.(outMax := rmax.value) else s;
    QuotaResetWindowIff(s1);
    var s2 := Reset(s1, true);
    var s3 := if s2.cs == Disconnecting then s2 else s2.(cs := Active);
    RetryKeepsLead(s3, net);
    ResetPositions(s1.outq, s1.outMax, true);
    RetryKeepsStates(s3.outq, s3.sock, s3.sends, net);
    if code == 0 && Window(Retry(s3, net)) {
      var r := Retry(s3, net).outq;
      assert forall i :: 0 <= i < |r| ==> s3.outq[i].state == r[i].state;
      assert TailInvalid(s3.outq);
    }
  }

  const RAISED := [AppPublish(Request(1, "a")), AppPublish(Request(1, "b")), Reconnect(false)]

  lemma PublishGrows(s: Session, req: Request, net: Network)
    requires Covered(s) && (req.qos == 1 || req.qos == 2)
    ensures var t := Step(s, AppPublish(req), net);
            Covered(t) && |t.outq| == |s.outq| + 1 && t.outMax == s.outMax
  {
    StepCovered(s, AppPublish(req), net);
  }

  lemma RunThree(s: Session, a: Event, b: Event, c: Event, net: Network)
    ensures Run(s, [a, b, c], net) == Step(Step(Step(s, a, net), b, net), c, net)
  {
    var t := Step(s, a, net);
    var u := Step(t, b, net);
    assert [a, b, c][1..] == [b, c] && [b, c][1..] == [c] && [c][1..] == [];
    assert Run(u, [c], net) == Step(u, c, net);
    assert Run(t, [b, c], net) == Run(u, [c], net);
  }

  lemma ReconnectFills(s: Session, net: Network)
    requires Covered(s) && s.outMax <= |s.outq|
    ensures var t := Step(s, Reconnect(false), net); Qos12(t.outq) && Lead(t.outq) == s.outMax && |t.outq| == |s.outq|
  {
    FullResetWindow(s);
  }

  /** Two messages published offline under a maximum of one, a reconnect, and a CONNACK with the
    Receive Maximum 2: the second message is charged to the quota but waits. */
  lemma RaisedMaximumRun(net: Network)
    ensures var s := Run(Initial(Mqtt5, 1, 20), RAISED, net);
            !Window(ConnackStep(s, false, 0, Some(2), [], net).s)
  {
    var s0 := Initial(Mqtt5, 1, 20);
    var s1 := Step(s0, RAISED[0], net);
    var s2 := Step(s1, RAISED[1], net);
    PublishGrows(s0, Request(1, "a"), net);
    PublishGrows(s1, Request(1, "b"), net);
    ReconnectFills(s2, net);
    RunThree(s0, RAISED[0], RAISED[1], RAISED[2], net);
    ConnackRestoresWindowIff(Run(s0, RAISED, net), 0, Some(2), net);
  }

  /** One fair step on a network that only fails while the socket is closed. */
  lemma FairStepWindow(s: Session, e: Event, net: Network)
    requires WindowWhileOpen(s) && Fair(s, e) && Reliable(net, 0) && s.outMax > 0
    requires e.Receive? ==> BadIsError(e.packet)
    ensures WindowWhileOpen(Step(s, e, net))
  {
    StepCovered(s, e, net);
    match e
    case AppPublish(req) => if s.sock { PublishExact(s, req, net, 0); }
    case Receive(p, app) =>
      if s.sock {
        match p {
          case RecvPuback(a) => AckKeepsWindowIff(s, a, 1, app, net);
          case RecvPubcomp(a) => AckKeepsWindowIff(s, a, 2, app, net);
          case RecvPubrec(a) => PubrecKeepsWindowIff(s, a, app, net);
          case RecvConnack(bad, code, rmax) => if !bad { ConnackWindow(s, code, rmax, app, net); }
          case RecvPubrel(a) => PubrelWindow(s, a, app, net);
          case RecvPublish(_, _, _, _) => IncomingPublishWindow(s, p, app, net);
        }
      }
    case SocketLost =>
    case Reconnect(refused) => FullResetWindow(s);
    case AppDisconnect =>
  }

  /** A packet that cannot be decoded is an error. */
  predicate BadIsError(p: Received) {
    match p
    case RecvPuback(a) => a.BadBody? ==> a.rc != Success
    case RecvPubcomp(a) => a.BadBody? ==> a.rc != Success
    case RecvPubrec(a) => a.BadBody? ==> a.rc != Success
    case RecvPubrel(a) => a.BadBody? ==> a.rc != Success
    case _ => true
  }

  predicate FairRun(s: Session, events: seq<Event>, net: Network)
    decreases |events|
  {
    events == [] ||
    (&& Fair(s, events[0])
     && (events[0].Receive? ==> BadIsError(events[0].packet))
     && Step(s, events[0], net).outMax > 0
     && FairRun(Step(s, events[0], net), events[1..], net))
  }

  lemma {:induction false} FairRunWindow(s: Session, events: seq<Event>, net: Network)
    requires WindowWhileOpen(s) && FairRun(s, events, net) && Reliable(net, 0) && s.outMax > 0
    ensures WindowWhileOpen(Run(s, events, net))
    decreases |events|
  {
    if events != [] {
      FairStepWindow(s, events[0], net);
      FairRunWindow(Step(s, events[0], net), events[1..], net);
    }
  }

  /** The send window after an arbitrary past: whatever the broker and the network did before,
    once a reconnect is followed by a fair broker and a network that fails only while
    disconnected, the window is exact in every session with an open socket from then on. */
  lemma WindowAfterRecovery(protocol: ProtocolVersion, outMax: nat, inMax: nat,
                            past: seq<Event>, faulty: Network, refused: bool, future: seq<Event>, net: Network)
    requires RunOk(Initial(protocol, outMax, inMax), past, faulty)
    requires var s := Run(Initial(protocol, outMax, inMax), past, faulty);
             s.outMax > 0 && FairRun(Step(s, Reconnect(refused), faulty), future, net)
    requires Reliable(net, 0)
    ensures var s := Run(Initial(protocol, outMax, inMax), past, faulty);
            WindowWhileOpen(Run(Step(s, Reconnect(refused), faulty), future, net))
  {
    var s := Run(Initial(protocol, outMax, inMax), past, faulty);
    RecoveryRestoresWindow(protocol, outMax, inMax, past, faulty, refused);
    WindowIsCovered(Step(s, Reconnect(refused), faulty));
    FairRunWindow(Step(s, Reconnect(refused), faulty), future, net);
  }
}
