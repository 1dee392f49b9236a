/** The outgoing packet queue: `packet__queue`, `packet__write` with partial and blocked writes, and
  `packet__cleanup_all_no_locks`, on the linked list the client keeps. */
module FrameWriter {
  import opened Common

  class OutPacket {
    const command: byte
    const payload: seq<byte>
    var toProcess: nat
    var pos: nat
    var next: OutPacket?

    constructor (command: byte, payload: seq<byte>)
      ensures this.command == command && this.payload == payload
    {
      this.command, this.payload := command, payload;
      toProcess, pos, next := 0, 0, null;
    }
  }

  datatype Errno = WouldBlock | ConnReset | Interrupted | BadProtocol | OtherErrno

  type Positive = n: nat | n >= 1 witness 1

  /** What one `net__write` does: takes up to that many of the bytes offered, or none. */
  datatype Attempt = Takes(n: Positive) | Refuses(errno: Errno)

  /** What `packet__write` returns when the network takes nothing. */
  function RefusalRc(errno: Errno): Rc {
    match errno
    case WouldBlock => Success
    case ConnReset => ConnLost
    case Interrupted => Success
    case BadProtocol => Tls
    case OtherErrno => SystemError
  }

  /** One packet on its way: whether it was finished, how many bytes went out, what the call
    returns if not, and the number of attempts used up. */
  datatype Progress = Progress(finished: bool, bytes: nat, rc: Rc, used: nat)

  /** A packet of so many bytes meets the network, after some attempts have been used; with none
    left the network blocks. */
  function SendBytes(bytes: nat, attempts: seq<Attempt>, used: nat): (p: Progress)
    requires used <= |attempts|
    ensures p.bytes <= bytes && (p.finished <==> p.bytes == bytes) && used <= p.used <= |attempts|
    decreases |attempts| - used
  {
    if bytes == 0 then Progress(true, 0, Success, used)
    else if used == |attempts| then Progress(false, 0, Success, used)
    else match attempts[used]
      case Takes(k) => Advanced(SendBytes(bytes - Min(k, bytes), attempts, used + 1), Min(k, bytes))
      case Refuses(errno) => Progress(false, 0, RefusalRc(errno), used + 1)
  }

  function Advanced(p: Progress, sent: nat): Progress {
    p.(bytes := sent + p.bytes)
  }

  lemma NextAttempt(bytes: nat, attempts: seq<Attempt>, used: nat, sent: nat)
    requires bytes > 0 && used <= |attempts|
    ensures Advanced(SendBytes(bytes, attempts, used), sent) ==
      if used == |attempts| then Progress(false, sent, Success, used)
      else if attempts[used].Refuses? then Progress(false, sent, RefusalRc(attempts[used].errno), used + 1)
      else
        var n := Min(attempts[used].n, bytes);
        Advanced(SendBytes(bytes - n, attempts, used + 1), sent + n)
  {
  }

  /** A packet yet to be sent: how many bytes, and whether it is a DISCONNECT. */
  datatype Load = Load(bytes: nat, disconnect: bool)

  /** How many bytes went out, the result, and whether the socket is closed afterwards. */
  datatype Outcome = Outcome(bytes: nat, rc: Rc, closed: bool)

  /** What a call of `packet__write` does with the packets before it. */
  function WriteLoads(loads: seq<Load>, attempts: seq<Attempt>, used: nat): Outcome
    requires used <= |attempts|
    decreases |loads|
  {
    if loads == [] then Outcome(0, Success, false)
    else
      var p := SendBytes(loads[0].bytes, attempts, used);
      if !p.finished then Outcome(p.bytes, p.rc, false)
      else if loads[0].disconnect then Outcome(p.bytes, Success, true)
      else Extended(WriteLoads(loads[1..], attempts, p.used), p.bytes)
  }

  /** The same with what `packet__write` asks about the client first. */
  function Written(sock: bool, connectPending: bool, loads: seq<Load>, attempts: seq<Attempt>): Outcome {
    if !sock then Outcome(0, NoConn, true)
    else if connectPending then Outcome(0, Success, false)
    else WriteLoads(loads, attempts, 0)
  }

  function Extended(o: Outcome, bytes: nat): Outcome {
    o.(bytes := bytes + o.bytes)
  }

  function TotalBytes(loads: seq<Load>): nat {
    if loads == [] then 0 else loads[0].bytes + TotalBytes(loads[1..])
  }

  lemma {:induction false} SendBytesTaken(bytes: nat, attempts: seq<Attempt>, used: nat)
    requires forall i :: 0 <= i < |attempts| ==> attempts[i].Takes?
    requires used + bytes <= |attempts|
    ensures var p := SendBytes(bytes, attempts, used); p.finished && p.used <= used + bytes
    decreases |attempts| - used
  {
    if bytes > 0 {
      SendBytesTaken(bytes - Min(attempts[used].n, bytes), attempts, used + 1);
    }
  }

  /** If the network takes something at each of enough attempts, every packet goes out whole, up to
    a DISCONNECT. */
  lemma {:induction false} EverythingGoesOut(loads: seq<Load>, attempts: seq<Attempt>, used: nat)
    requires forall i :: 0 <= i < |attempts| ==> attempts[i].Takes?
    requires used + TotalBytes(loads) <= |attempts|
    requires forall i :: 0 <= i < |loads| ==> !loads[i].disconnect
    ensures WriteLoads(loads, attempts, used) == Outcome(TotalBytes(loads), Success, false)
    decreases |loads|
  {
    if loads != [] {
      SendBytesTaken(loads[0].bytes, attempts, used);
      EverythingGoesOut(loads[1..], attempts, SendBytes(loads[0].bytes, attempts, used).used);
    }
  }

  /** What the network takes until it refuses or there are no more attempts. */
  function Capacity(attempts: seq<Attempt>, used: nat): nat
    requires used <= |attempts|
    decreases |attempts| - used
  {
    if used == |attempts| || attempts[used].Refuses? then 0
    else attempts[used].n + Capacity(attempts, used + 1)
  }

  /** Of one packet goes out what the network takes, up to its end. */
  lemma {:induction false} SendBytesExact(bytes: nat, attempts: seq<Attempt>, used: nat)
    requires used <= |attempts|
    ensures SendBytes(bytes, attempts, used).bytes == Min(bytes, Capacity(attempts, used))
    decreases |attempts| - used
  {
    if bytes > 0 && used < |attempts| && attempts[used].Takes? {
      SendBytesExact(bytes - Min(attempts[used].n, bytes), attempts, used + 1);
    }
  }

  /** And of all packets no more than it takes. */
  lemma {:induction false} WriteLoadsBound(loads: seq<Load>, attempts: seq<Attempt>, used: nat)
    requires used <= |attempts|
    ensures WriteLoads(loads, attempts, used).bytes <= Capacity(attempts, used)
    decreases |loads|
  {
    if loads != [] {
      var p := SendBytes(loads[0].bytes, attempts, used);
      SendBytesWithin(loads[0].bytes, attempts, used);
      if p.finished {
        WriteLoadsBound(loads[1..], attempts, p.used);
      }
    }
  }

  lemma {:induction false} SendBytesWithin(bytes: nat, attempts: seq<Attempt>, used: nat)
    requires used <= |attempts|
    ensures var p := SendBytes(bytes, attempts, used);
            if p.finished then p.bytes + Capacity(attempts, p.used) <= Capacity(attempts, used)
            else p.bytes <= Capacity(attempts, used)
    decreases |attempts| - used
  {
    if bytes > 0 && used < |attempts| && attempts[used].Takes? {
      SendBytesWithin(bytes - Min(attempts[used].n, bytes), attempts, used + 1);
    }
  }

  /** The result when the first attempt at something is refused. */
  lemma {:induction false} RefusedResult(loads: seq<Load>, attempts: seq<Attempt>)
    requires loads != [] && loads[0].bytes > 0 && attempts != [] && attempts[0].Refuses?
    ensures var o := WriteLoads(loads, attempts, 0);
            && o.bytes == 0 && !o.closed
            && (o.rc == Success <==> attempts[0].errno == WouldBlock || attempts[0].errno == Interrupted)
            && (o.rc == ConnLost <==> attempts[0].errno == ConnReset)
            && (o.rc == Tls <==> attempts[0].errno == BadProtocol)
            && (o.rc == SystemError <==> attempts[0].errno == OtherErrno)
  {
  }

  /** The loads up to the first DISCONNECT are all that is written, and the socket is closed exactly
    if they are written whole. */
  lemma {:induction false} ClosedIff(loads: seq<Load>, attempts: seq<Attempt>, used: nat, i: nat)
    requires used <= |attempts| && i < |loads| && loads[i].disconnect
    requires forall j :: 0 <= j < i ==> !loads[j].disconnect
    ensures var o := WriteLoads(loads, attempts, used);
            o.bytes <= TotalBytes(loads[..i + 1]) && (o.closed <==> o.bytes == TotalBytes(loads[..i + 1]))
    decreases |loads|
  {
    var p := SendBytes(loads[0].bytes, attempts, used);
    assert loads[..i + 1][1..] == loads[1..][..i];
    if i == 0 {
      assert loads[..1][1..] == [];
    } else if p.finished {
      assert loads[1..][i - 1] == loads[i];
      ClosedIff(loads[1..], attempts, p.used, i - 1);
    }
  }

  lemma {:induction false} NeverClosed(loads: seq<Load>, attempts: seq<Attempt>, used: nat)
    requires used <= |attempts| && forall j :: 0 <= j < |loads| ==> !loads[j].disconnect
    ensures !WriteLoads(loads, attempts, used).closed
    decreases |loads|
  {
    if loads != [] {
      var p := SendBytes(loads[0].bytes, attempts, used);
      if p.finished {
        NeverClosed(loads[1..], attempts, p.used);
      }
    }
  }

  predicate IsDisconnect(command: byte) {
    command / 16 == 14
  }

  function LoadOf(p: OutPacket, bytes: nat): Load {
    Load(bytes, IsDisconnect(p.command))
  }

  ghost function Loads(q: seq<OutPacket>): seq<Load> {
    if q == [] then [] else [LoadOf(q[0], |q[0].payload|)] + Loads(q[1..])
  }

  lemma {:induction false} LoadsAt(q: seq<OutPacket>)
    ensures |Loads(q)| == |q|
    ensures forall i :: 0 <= i < |q| ==> Loads(q)[i] == LoadOf(q[i], |q[i].payload|)
    decreases |q|
  {
    if q != [] {
      LoadsAt(q[1..]);
    }
  }

  /** The packet at i is the first one with the command of a DISCONNECT. */
  ghost predicate FirstClosing(q: seq<OutPacket>, i: nat)
    requires i < |q|
  {
    0xE0 <= q[i].command <= 0xEF && forall j :: 0 <= j < i ==> !(0xE0 <= q[j].command <= 0xEF)
  }

  /** Of the packets q with so much left to send each, none after the first DISCONNECT goes out, and
    the socket is closed exactly if that one went out whole. */
  ghost predicate StopsAtClosing(q: seq<OutPacket>, loads: seq<Load>, written: int, closed: bool) {
    && |loads| == |q|
    && forall i :: 0 <= i < |q| && FirstClosing(q, i) ==>
         written <= TotalBytes(loads[..i + 1]) && (closed <==> written == TotalBytes(loads[..i + 1]))
  }

  /** The bytes of a queue of packets, in order. */
  ghost function Flatten(q: seq<OutPacket>): seq<byte> {
    if q == [] then [] else q[0].payload + Flatten(q[1..])
  }

  lemma {:induction false} FlattenAppend(q: seq<OutPacket>, p: OutPacket)
    ensures Flatten(q + [p]) == Flatten(q) + p.payload
    decreases |q|
  {
    if q == [] {
      assert (q + [p])[1..] == [];
    } else {
      assert (q + [p])[1..] == q[1..] + [p];
      FlattenAppend(q[1..], p);
    }
  }

  lemma {:induction false} LoadsAppend(q: seq<OutPacket>, p: OutPacket)
    ensures Loads(q + [p]) == Loads(q) + [LoadOf(p, |p.payload|)]
    decreases |q|
  {
    if q == [] {
      assert (q + [p])[1..] == [];
    } else {
      assert (q + [p])[1..] == q[1..] + [p];
      LoadsAppend(q[1..], p);
    }
  }

  ghost predicate Distinct(q: seq<OutPacket>) {
    forall i, j :: 0 <= i < j < |q| ==> q[i] != q[j]
  }

  lemma DistinctSnoc(q: seq<OutPacket>, p: OutPacket)
    requires Distinct(q) && p !in q
    ensures Distinct(q + [p])
  {
  }

  /** The packet after position i in the list, or null at its end. */
  ghost function After(q: seq<OutPacket>, i: nat): OutPacket? {
    if i + 1 < |q| then q[i + 1] else null
  }

  class Writer {
    var sock: bool
    var connectPending: bool
    var outPacket: OutPacket?
    var outPacketLast: OutPacket?
    var currentOutPacket: OutPacket?
    var outPacketCount: int

    /** The bytes the network has accepted on this connection. */
    var wire: seq<byte>

    ghost var queue: seq<OutPacket>     // the waiting list
    ghost var freed: seq<OutPacket>     // every packet freed, in order
    ghost var promised: seq<byte>       // the bytes of the packets queued on this connection

    ghost function Current(): seq<OutPacket>
      reads this
    {
      if currentOutPacket == null then [] else [currentOutPacket]
    }

    /** Every packet ever queued, in order: each is freed, being sent or waiting. */
    ghost function Accepted(): seq<OutPacket>
      reads this
    {
      freed + Current() + queue
    }

    /** The waiting list is a proper linked list of untouched packets. */
    ghost predicate Chained()
      reads this, queue
    {
      && outPacket == (if queue == [] then null else queue[0])
      && (queue != [] ==> outPacketLast == queue[|queue| - 1])
      && (forall i {:trigger queue[i]} :: 0 <= i < |queue| ==>
            queue[i].next == After(queue, i) && queue[i].pos == 0 && queue[i].toProcess == |queue[i].payload|)
    }

    ghost predicate Linked()
      reads this, queue
    {
      Chained() && outPacketCount == |queue|
    }

    /** What the current packet still has to send. */
    ghost predicate Sending()
      reads this, currentOutPacket
    {
      currentOutPacket != null ==> currentOutPacket.pos + currentOutPacket.toProcess == |currentOutPacket.payload|
    }

    ghost function Remainder(): seq<byte>
      requires Sending()
      reads this, currentOutPacket
    {
      if currentOutPacket == null then [] else currentOutPacket.payload[currentOutPacket.pos..]
    }

    /** The packets still to be sent, the one under way with the bytes it has left. */
    ghost function Pending(): seq<Load>
      reads this, currentOutPacket
    {
      (if currentOutPacket == null then [] else [LoadOf(currentOutPacket, currentOutPacket.toProcess)]) + Loads(queue)
    }

    ghost predicate Valid()
      reads this, queue, currentOutPacket
    {
      && Distinct(Accepted())
      && Linked()
      && Sending()
      && promised == wire + Remainder() + Flatten(queue)
    }

    constructor ()
      ensures Valid() && Accepted() == [] && wire == [] && promised == []
    {
      sock, connectPending := false, false;
      outPacket, outPacketLast, currentOutPacket, outPacketCount := null, null, null, 0;
      wire, queue, freed, promised := [], [], [], [];
    }

    /** The list part of `packet__queue`. */
    method Append(p: OutPacket)
      requires Linked() && Distinct(queue) && p !in queue
      modifies this`outPacket, this`outPacketLast, this`outPacketCount, this`queue
      modifies p`pos, p`toProcess, p`next, queue`next
      ensures Linked() && queue == old(queue) + [p]
    {
      p.pos := 0;
      p.toProcess := |p.payload|;
      p.next := null;
      if outPacket != null {
        outPacketLast.next := p;
      } else {
        outPacket := p;
      }
      outPacketLast := p;
      outPacketCount := outPacketCount + 1;
      ghost var q := queue;
      queue := queue + [p];
      forall i | 0 <= i < |queue|
        ensures queue[i].next == After(queue, i) && queue[i].pos == 0 && queue[i].toProcess == |queue[i].payload|
      {
        if i < |q| {
          assert queue[i] == q[i];
          if i + 1 < |q| {
            assert q[i] != q[|q| - 1];
            assert old(q[i].next) == After(q, i);
          }
        }
      }
    }

    /** `packet__queue`, up to the attempt to write. */
    method Enqueue(p: OutPacket)
      requires Valid() && p !in Accepted()
      modifies this`outPacket, this`outPacketLast, this`outPacketCount, this`queue, this`promised
      modifies p`pos, p`toProcess, p`next, queue`next
      ensures Valid() && Accepted() == old(Accepted()) + [p]
      ensures promised == old(promised) + p.payload
      ensures Pending() == old(Pending()) + [LoadOf(p, |p.payload|)]
      ensures queue == old(queue) + [p]
    {
      ghost var all, q, r := Accepted(), queue, Remainder();
      CurrentNotWaiting();
      NotAccepted(p);
      Append(p);
      promised := promised + p.payload;
      assert Accepted() == all + [p];
      DistinctSnoc(all, p);
      FlattenAppend(q, p);
      LoadsAppend(q, p);
      assert Remainder() == r;
      Joined(wire, r, Flatten(q), p.payload);
    }

    lemma NotAccepted(p: OutPacket)
      requires p !in Accepted()
      ensures p !in queue && p != currentOutPacket
    {
      assert forall i :: 0 <= i < |queue| ==> Accepted()[|freed| + |Current()| + i] == queue[i];
      assert currentOutPacket != null ==> Accepted()[|freed|] == currentOutPacket;
    }

    lemma CurrentNotWaiting()
      requires Distinct(Accepted())
      ensures forall i :: 0 <= i < |queue| ==> queue[i] != currentOutPacket
      ensures Distinct(queue)
    {
      var a := Accepted();
      var n := |freed| + |Current()|;
      assert forall i :: 0 <= i < |queue| ==> queue[i] == a[n + i];
      assert currentOutPacket != null ==> a[|freed|] == currentOutPacket;
    }

    /** Moves the head of the waiting list, if any, to the place of the current packet. */
    method Advance()
      requires Chained()
      modifies this`currentOutPacket, this`outPacket, this`queue
      ensures Chained() && Sending()
      ensures Current() + queue == old(queue)
      ensures currentOutPacket == null ==> queue == []
      ensures currentOutPacket != null ==> currentOutPacket.pos == 0 && |queue| == |old(queue)| - 1
    {
      currentOutPacket := outPacket;
      if outPacket != null {
        ghost var q := queue;
        outPacket := outPacket.next;
        queue := queue[1..];
        assert q[0].next == After(q, 0);
        forall i | 0 <= i < |queue|
          ensures queue[i].next == After(queue, i) && queue[i].pos == 0 && queue[i].toProcess == |queue[i].payload|
        {
          assert queue[i] == q[i + 1];
        }
      }
    }

    method Shift()
      requires Linked()
      modifies this`currentOutPacket, this`outPacket, this`outPacketLast, this`outPacketCount, this`queue
      ensures Linked() && Sending()
      ensures Current() + queue == old(queue)
      ensures currentOutPacket == null ==> queue == []
      ensures currentOutPacket != null ==> currentOutPacket.pos == 0 && |queue| == |old(queue)| - 1
    {
      Advance();
      if currentOutPacket != null {
        if outPacket == null {
          outPacketLast := null;
        }
        outPacketCount := outPacketCount - 1;
      }
    }

    /** What was waiting is what is left to send, once the head has become the current packet. */
    lemma HeadRemainder(q: seq<OutPacket>)
      requires Current() + queue == q && Sending()
      requires currentOutPacket != null ==> currentOutPacket.pos == 0
      requires currentOutPacket == null ==> queue == []
      ensures Remainder() + Flatten(queue) == Flatten(q)
    {
      if currentOutPacket != null {
        assert q[0] == currentOutPacket && q[1..] == queue;
      }
    }

    lemma HeadPending(q: seq<OutPacket>)
      requires Current() + queue == q && Sending()
      requires currentOutPacket != null ==> currentOutPacket.pos == 0
      requires currentOutPacket == null ==> queue == []
      ensures Pending() == Loads(q)
    {
      if currentOutPacket != null {
        assert q[0] == currentOutPacket && q[1..] == queue;
      }
    }

    /** The current packet has been sent: frees it and shifts the list. */
    method Retire()
      requires Valid() && currentOutPacket != null && currentOutPacket.toProcess == 0
      modifies this`currentOutPacket, this`outPacket, this`outPacketLast, this`outPacketCount, this`queue, this`freed
      ensures Valid() && Accepted() == old(Accepted())
      ensures freed == old(freed) + [old(currentOutPacket)]
      ensures Current() + queue == old(queue) && Pending() == Loads(old(queue))
      ensures currentOutPacket == null ==> queue == []
    {
      ghost var packet, q, all := currentOutPacket, queue, Accepted();
      assert all == freed + [packet] + q;
      assert promised == wire + Flatten(q) by {
        assert Remainder() == [];
        assert wire + [] == wire;
      }
      Shift();
      HeadRemainder(q);
      HeadPending(q);
      Regroup(wire, Remainder(), Flatten(queue), Flatten(q));
      Regroup(freed + [packet], Current(), queue, q);
      freed := freed + [packet];
      assert Accepted() == all;
    }

    /** The inner loop of `packet__write`: sends a packet until it is finished or the network does
      not take any more. */
    method SendPacket(packet: OutPacket, attempts: seq<Attempt>, used: nat) returns (done: bool, rc: Rc, used': nat)
      requires packet.pos + packet.toProcess == |packet.payload| && used <= |attempts|
      modifies this`wire, packet`pos, packet`toProcess
      ensures var p := SendBytes(old(packet.toProcess), attempts, used);
        && done == p.finished && rc == p.rc && used' == p.used
        && packet.pos == old(packet.pos) + p.bytes && packet.toProcess == old(packet.toProcess) - p.bytes
      ensures old(packet.pos) <= packet.pos <= |packet.payload|
      ensures wire == old(wire) + packet.payload[old(packet.pos)..packet.pos]
    {
      used', rc := used, Success;
      ghost var start, from, p := wire, packet.pos, SendBytes(packet.toProcess, attempts, used);
      while packet.toProcess > 0
        invariant from <= packet.pos && packet.pos + packet.toProcess == |packet.payload| && used' <= |attempts|
        invariant wire == start + packet.payload[from..packet.pos]
        invariant Advanced(SendBytes(packet.toProcess, attempts, used'), packet.pos - from) == p
        decreases packet.toProcess
      {
        NextAttempt(packet.toProcess, attempts, used', packet.pos - from);
        if used' == |attempts| {
          return false, Success, used';
        }
        var attempt := attempts[used'];
        used' := used' + 1;
        match attempt {
          case Takes(k) =>
            var n := Min(k, packet.toProcess);
            SliceGrows(start, packet.payload, from, packet.pos, n);
            wire := wire + packet.payload[packet.pos..packet.pos + n];
            packet.toProcess := packet.toProcess - n;
            packet.pos := packet.pos + n;
          case Refuses(errno) =>
            return false, RefusalRc(errno), used';
        }
      }
      done := true;
    }

    /** The current packet meets the network. */
    method SendCurrent(attempts: seq<Attempt>, used: nat) returns (done: bool, rc: Rc, used': nat)
      requires Valid() && currentOutPacket != null && used <= |attempts|
      modifies this`wire, currentOutPacket`pos, currentOutPacket`toProcess
      ensures Valid() && Accepted() == old(Accepted()) && old(wire) <= wire
      ensures var p := SendBytes(old(currentOutPacket.toProcess), attempts, used);
        && done == p.finished && rc == p.rc && used' == p.used
        && |wire| == |old(wire)| + p.bytes
        && currentOutPacket.toProcess == old(currentOutPacket.toProcess) - p.bytes
    {
      CurrentNotWaiting();
      var packet := currentOutPacket;
      ghost var p, r, f := SendBytes(packet.toProcess, attempts, used), Remainder(), Flatten(queue);
      SlicesOf(packet.payload, packet.pos, p.bytes);
      Moved(wire, r, f, p.bytes);
      done, rc, used' := SendPacket(packet, attempts, used);
      assert wire == old(wire) + r[..p.bytes] && Remainder() == r[p.bytes..];
    }

    /** If nothing is being sent, starts on the head of the waiting list. */
    method Begin()
      requires Valid()
      modifies this`currentOutPacket, this`outPacket, this`outPacketLast, this`outPacketCount, this`queue
      ensures Valid() && Accepted() == old(Accepted())
      ensures Current() + queue == old(Current() + queue) && Pending() == old(Pending())
      ensures currentOutPacket == null ==> queue == []
    {
      if outPacket != null && currentOutPacket == null {
        ghost var all, q := Accepted(), queue;
        assert all == freed + q;
        Shift();
        HeadRemainder(q);
        HeadPending(q);
        assert [] + Loads(q) == Loads(q);
        Regroup(freed, Current(), queue, q);
        Regroup(wire, Remainder(), Flatten(queue), Flatten(q));
        assert wire + [] + Flatten(q) == wire + Flatten(q);
        assert Current() + queue == q;
      }
    }

    /** One turn of the outer loop of `packet__write`. */
    method SendOne(attempts: seq<Attempt>, used: nat) returns (stop: bool, rc: Rc, used': nat)
      requires Valid() && currentOutPacket != null && used <= |attempts|
      modifies this, currentOutPacket
      ensures Valid() && Accepted() == old(Accepted()) && promised == old(promised)
      ensures old(wire) <= wire && connectPending == old(connectPending)
      ensures var p := SendBytes(old(currentOutPacket.toProcess), attempts, used);
        var closing := p.finished && IsDisconnect(old(currentOutPacket).command);
        && stop == (!p.finished || closing) && used' == p.used
        && rc == (if p.finished then Success else p.rc)
        && |wire| == |old(wire)| + p.bytes
        && sock == (old(sock) && !closing)
        && (p.finished ==> Current() + queue == old(queue) && Pending() == Loads(old(queue)))
        && (currentOutPacket == null ==> queue == [])
    {
      stop, rc, used' := SendCurrent(attempts, used);
      if !stop {
        return true, rc, used';
      }
      rc := Success;
      stop := Finish();
    }

    /** The current packet is complete: it is freed, and after a DISCONNECT the socket is closed. */
    method Finish() returns (stop: bool)
      requires Valid() && currentOutPacket != null && currentOutPacket.toProcess == 0
      modifies this
      ensures Valid() && Accepted() == old(Accepted()) && promised == old(promised) && wire == old(wire)
      ensures stop == (0xE0 <= old(currentOutPacket).command <= 0xEF) && sock == (old(sock) && !stop)
      ensures Current() + queue == old(queue) && Pending() == Loads(old(queue))
      ensures currentOutPacket == null ==> queue == []
      ensures connectPending == old(connectPending)
    {
      stop := IsDisconnect(currentOutPacket.command);
      if stop {
        sock := false;
      }
      Retire();
    }

    /** Closing, in terms of the packets. */
    lemma ClosingPackets(attempts: seq<Attempt>)
      ensures var o := WriteLoads(Pending(), attempts, 0);
        && ((forall p :: p in Current() + queue ==> !(0xE0 <= p.command <= 0xEF)) ==> !o.closed)
        && StopsAtClosing(Current() + queue, Pending(), o.bytes, o.closed)
    {
      var q, loads := Current() + queue, Pending();
      LoadsAt(queue);
      forall i | 0 <= i < |q| ensures loads[i].disconnect <==> 0xE0 <= q[i].command <= 0xEF {
        PendingPackets(i);
      }
      if forall p :: p in q ==> !(0xE0 <= p.command <= 0xEF) {
        NeverClosed(loads, attempts, 0);
      }
      forall i | 0 <= i < |q| && FirstClosing(q, i)
        ensures var o := WriteLoads(loads, attempts, 0);
          o.bytes <= TotalBytes(loads[..i + 1]) && (o.closed <==> o.bytes == TotalBytes(loads[..i + 1]))
      {
        ClosedIff(loads, attempts, 0, i);
      }
    }

    /** The packets under way and waiting, one for each load, the DISCONNECT packets among them being
      those with a command from 0xE0 to 0xEF. */
    lemma PendingPackets(i: nat)
      requires i < |Current() + queue|
      ensures |Pending()| == |Current() + queue|
      ensures Pending()[i].disconnect <==> 0xE0 <= (Current() + queue)[i].command <= 0xEF
    {
      LoadsAt(queue);
    }

    /** `packet__write`.  Sending a DISCONNECT closes the socket (`do_client_disconnect`), with
      the next packet left in the place of the current one.  As the wire holds a prefix of what was
      promised, its length says what was written. */
    method PacketWrite(attempts: seq<Attempt>) returns (rc: Rc)
      requires Valid()
      modifies this, Current() + queue
      ensures Valid() && Accepted() == old(Accepted()) && promised == old(promised)
      ensures old(wire) <= wire
      ensures var o := Written(old(sock), old(connectPending), old(Pending()), attempts);
        |wire| == |old(wire)| + o.bytes && rc == o.rc && sock == !o.closed
      ensures old(sock) && (forall p :: p in old(Current() + queue) ==> !(0xE0 <= p.command <= 0xEF)) ==> sock
      ensures old(sock && !connectPending) ==>
        StopsAtClosing(old(Current() + queue), old(Pending()), |wire| - |old(wire)|, !sock)
    {
      ClosingPackets(attempts);
      if !sock {
        return NoConn;
      }
      Begin();
      if connectPending {
        return Success;
      }
      rc := SendAll(attempts);
    }

    /** `packet__queue`: outside callbacks and without a network thread it writes at once. */
    method PacketQueue(p: OutPacket, inCallback: bool, threaded: bool, attempts: seq<Attempt>) returns (rc: Rc)
      requires Valid() && p !in Accepted()
      modifies this, p, Current(), queue
      ensures Valid() && Accepted() == old(Accepted()) + [p]
      ensures promised == old(promised) + p.payload && old(wire) <= wire
      ensures var loads := old(Pending()) + [LoadOf(p, |p.payload|)];
        var o := if inCallback || threaded then Outcome(0, Success, !old(sock))
                 else Written(old(sock), old(connectPending), loads, attempts);
        |wire| == |old(wire)| + o.bytes && rc == o.rc && sock == !o.closed
    {
      ghost var loads, waiting := Pending() + [LoadOf(p, |p.payload|)], queue;
      Enqueue(p);
      assert Pending() == loads;
      if inCallback || threaded {
        return Success;
      }
      assert queue == waiting + [p];
      rc := PacketWrite(attempts);
    }

    /** The outer loop of `packet__write`. */
    method SendAll(attempts: seq<Attempt>) returns (rc: Rc)
      requires Valid() && sock && (currentOutPacket == null ==> queue == [])
      modifies this, Current() + queue
      ensures Valid() && Accepted() == old(Accepted()) && promised == old(promised) && old(wire) <= wire
      ensures var o := WriteLoads(old(Pending()), attempts, 0);
        |wire| == |old(wire)| + o.bytes && rc == o.rc && sock == !o.closed
    {
      var used: nat := 0;
      ghost var o, start, all := WriteLoads(Pending(), attempts, 0), |wire|, Current() + queue;
      while currentOutPacket != null
        invariant Valid() && Accepted() == old(Accepted()) && promised == old(promised) && old(wire) <= wire
        invariant sock && start <= |wire| && (currentOutPacket == null ==> queue == [])
        invariant used <= |attempts| && Extended(WriteLoads(Pending(), attempts, used), |wire| - start) == o
        invariant forall p :: p in Current() + queue ==> p in all
        decreases |queue|, currentOutPacket != null
      {
        assert currentOutPacket in Current() + queue;
        NextLoad(currentOutPacket.toProcess, IsDisconnect(currentOutPacket.command), queue, attempts, used,
                 |wire| - start);
        var stop;
        stop, rc, used := SendOne(attempts, used);
        if stop {
          return;
        }
      }
      rc := Success;
    }

    /** `packet__cleanup_all_no_locks`: everything not yet freed is freed, once and in order. */
    method CleanupAll()
      requires Valid()
      modifies this
      ensures Valid() && freed == Accepted() == old(Accepted()) && Distinct(freed)
      ensures currentOutPacket == null && queue == [] && outPacketCount == 0
      ensures wire == old(wire) == promised
    {
      ghost var all := Accepted();
      if outPacket != null && currentOutPacket == null {
        AdvanceFreeing([]);
      }
      while currentOutPacket != null
        invariant Chained() && Sending() && Accepted() == all && wire == old(wire)
        invariant currentOutPacket == null ==> queue == []
        decreases |Current() + queue|
      {
        AdvanceFreeing([currentOutPacket]);
      }
      outPacketCount := 0;
      promised := wire;
      assert wire + [] + [] == wire;
      assert freed + [] + [] == freed;
    }

    /** One step of the cleanup: the current packet, if there is one, makes way and is freed. */
    method AdvanceFreeing(ghost packet: seq<OutPacket>)
      requires Chained() && packet == Current()
      modifies this`currentOutPacket, this`outPacket, this`queue, this`freed
      ensures Chained() && Sending() && Accepted() == old(Accepted())
      ensures Current() + queue == old(queue) && (currentOutPacket == null ==> queue == [])
    {
      ghost var q := queue;
      assert freed + Current() + queue == freed + packet + q;
      Advance();
      Regroup(freed + packet, Current(), queue, q);
      freed := freed + packet;
    }
  }

  lemma Regroup<T>(a: seq<T>, b: seq<T>, c: seq<T>, d: seq<T>)
    requires b + c == d
    ensures a + b + c == a + d
  {
  }

  lemma SlicesOf(payload: seq<byte>, pos: nat, n: nat)
    requires pos + n <= |payload|
    ensures payload[pos..][..n] == payload[pos..pos + n] && payload[pos..][n..] == payload[pos + n..]
  {
  }

  lemma SliceGrows(start: seq<byte>, payload: seq<byte>, from: nat, pos: nat, n: nat)
    requires from <= pos && pos + n <= |payload|
    ensures start + payload[from..pos] + payload[pos..pos + n] == start + payload[from..pos + n]
  {
    assert payload[from..pos] + payload[pos..pos + n] == payload[from..pos + n];
  }

  lemma Moved(wire: seq<byte>, remainder: seq<byte>, waiting: seq<byte>, n: nat)
    requires n <= |remainder|
    ensures wire + remainder + waiting == (wire + remainder[..n]) + remainder[n..] + waiting
    ensures wire <= wire + remainder[..n]
  {
    assert remainder == remainder[..n] + remainder[n..];
  }

  lemma Joined(a: seq<byte>, b: seq<byte>, c: seq<byte>, d: seq<byte>)
    ensures a + b + (c + d) == a + b + c + d
  {
  }

  lemma NextLoad(bytes: nat, disconnect: bool, q: seq<OutPacket>, attempts: seq<Attempt>, used: nat, sent: nat)
    requires used <= |attempts|
    ensures var p := SendBytes(bytes, attempts, used);
      Extended(WriteLoads([Load(bytes, disconnect)] + Loads(q), attempts, used), sent) ==
      if !p.finished then Outcome(sent + p.bytes, p.rc, false)
      else if disconnect then Outcome(sent + p.bytes, Success, true)
      else Extended(WriteLoads(Loads(q), attempts, p.used), sent + p.bytes)
  {
    assert ([Load(bytes, disconnect)] + Loads(q))[1..] == Loads(q);
  }

  /** With nothing left to send, everything promised is on the wire; before that, the wire holds a
    prefix of it. */
  lemma WireIsPrefix(w: Writer)
    requires w.Valid()
    ensures w.wire <= w.promised
    ensures w.currentOutPacket == null && w.queue == [] ==> w.wire == w.promised
    ensures w.outPacketCount == |w.queue|
  {
  }
}
