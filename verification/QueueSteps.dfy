/** The queue functions of `MessageFlow` recurse on the tail of a queue; the loops of the client
  advance a position in it.  These say what one turn of such a loop does to the result for the
  whole queue. */
module QueueSteps {
  import opened Common
  import opened MessageFlow

  ghost function ReleaseAt(q: seq<Message>, i: nat, quota: int, sock: bool, sends: nat, log: seq<Output>,
                           net: Network): Released
    requires i <= |q|
  {
    var r := ReleaseQueue(q[i..], quota, sock, sends, net);
    Released(q[..i] + r.q, r.quota, r.sends, log + r.log, r.rc)
  }

  lemma ReleaseAtStart(q: seq<Message>, quota: int, sock: bool, sends: nat, log: seq<Output>, net: Network)
    ensures var r := ReleaseQueue(q, quota, sock, sends, net);
            ReleaseAt(q, 0, quota, sock, sends, log, net) == r.(log := log + r.log)
  {
    assert q[0..] == q;
  }

  lemma ReleaseAtStop(q: seq<Message>, i: nat, quota: int, sock: bool, sends: nat, log: seq<Output>, net: Network)
    requires i <= |q| && (i == |q| || quota <= 0)
    ensures ReleaseAt(q, i, quota, sock, sends, log, net) == Released(q, quota, sends, log, Success)
  {
    assert q[..i] + q[i..] == q;
  }

  lemma {:induction false} ReleaseAtSkip(q: seq<Message>, i: nat, quota: int,
      sock: bool, sends: nat, log: seq<Output>, net: Network)
    requires i < |q| && quota > 0 && !(q[i].qos > 0 && q[i].state == Invalid)
    ensures ReleaseAt(q, i, quota, sock, sends, log, net) == ReleaseAt(q, i + 1, quota, sock, sends, log, net)
  {
    var r := ReleaseQueue(q[i + 1..], quota, sock, sends, net);
    assert q[i..][1..] == q[i + 1..];
    assert q[..i] + ([q[i]] + r.q) == q[..i + 1] + r.q;
  }

  lemma {:induction false} ReleaseAtSend(q: seq<Message>, i: nat, quota: int,
      sock: bool, sends: nat, log: seq<Output>, net: Network)
    requires i < |q| && quota > 0 && q[i].qos > 0 && q[i].state == Invalid
    ensures var m := Activated(q[i]);
            var ok := sock && net(sends);
            var log1 := log + [Sent(ToPacket(m), ok)];
            ReleaseAt(q, i, quota, sock, sends, log, net) ==
              if !ok then Released(q[i := m], quota, sends + 1, log1, SendRc(sock, ok))
              else ReleaseAt(q[i := m], i + 1, Decrement(quota), sock, sends + 1, log1, net)
  {
    var m := Activated(q[i]);
    var q1 := q[i := m];
    assert q[i..][1..] == q[i + 1..] == q1[i + 1..];
    if sock && net(sends) {
      var r := ReleaseQueue(q[i + 1..], Decrement(quota), sock, sends + 1, net);
      assert q[..i] + ([m] + r.q) == q1[..i + 1] + r.q;
      assert log + ([Sent(ToPacket(m), true)] + r.log) == log + [Sent(ToPacket(m), true)] + r.log;
    } else {
      assert q[..i] + ([m] + q[i + 1..]) == q1;
    }
  }

  ghost function RetryAt(q: seq<Message>, i: nat, sock: bool, sends: nat, log: seq<Output>, net: Network): Retried
    requires i <= |q|
  {
    var r := RetryQueue(q[i..], sock, sends, net);
    Retried(q[..i] + r.q, r.sends, log + r.log)
  }

  lemma RetryAtStart(q: seq<Message>, sock: bool, sends: nat, log: seq<Output>, net: Network)
    ensures var r := RetryQueue(q, sock, sends, net);
            RetryAt(q, 0, sock, sends, log, net) == r.(log := log + r.log)
  {
    assert q[0..] == q;
  }

  lemma RetryAtStep(q: seq<Message>, i: nat, sock: bool, sends: nat, log: seq<Output>, net: Network)
    requires i < |q|
    ensures var p := RetryPacket(q[i]);
            RetryAt(q, i, sock, sends, log, net) ==
              if p.None? then RetryAt(q, i + 1, sock, sends, log, net)
              else RetryAt(q[i := q[i].(dup := true)], i + 1, sock, sends + 1,
                           log + [Sent(p.value, sock && net(sends))], net)
  {
    var q1 := q[i := q[i].(dup := true)];
    assert q[i..][1..] == q[i + 1..] == q1[i + 1..];
    var p := RetryPacket(q[i]);
    if p.None? {
      var r := RetryQueue(q[i + 1..], sock, sends, net);
      assert q[..i] + ([q[i]] + r.q) == q[..i + 1] + r.q;
    } else {
      var o := Sent(p.value, sock && net(sends));
      var r := RetryQueue(q[i + 1..], sock, sends + 1, net);
      assert q[..i] + ([q1[i]] + r.q) == q1[..i + 1] + r.q;
      assert log + ([o] + r.log) == log + [o] + r.log;
    }
  }

  ghost function ResetAt(q: seq<Message>, i: nat, quota: int, quotaOnly: bool): ResetOut
    requires i <= |q|
  {
    var r := ResetOutQueue(q[i..], quota, quotaOnly);
    r.(q := q[..i] + r.q)
  }

  lemma ResetAtStep(q: seq<Message>, i: nat, quota: int, quotaOnly: bool)
    requires i < |q|
    ensures ResetAt(q, i, quota, quotaOnly) ==
              if quota != 0 then
                ResetAt(q[i := if quotaOnly then q[i] else ResetState(q[i])], i + 1, Decrement(quota), quotaOnly)
              else
                ResetAt(q[i := q[i].(state := Invalid)], i + 1, quota, quotaOnly)
  {
    var m := if quota == 0 then q[i].(state := Invalid) else if quotaOnly then q[i] else ResetState(q[i]);
    var q1 := q[i := m];
    assert q[i..][1..] == q[i + 1..] == q1[i + 1..];
    var r := ResetOutQueue(q[i + 1..], if quota == 0 then quota else Decrement(quota), quotaOnly);
    assert q[..i] + ([m] + r.q) == q1[..i + 1] + r.q;
  }
}
