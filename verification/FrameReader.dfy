/** `packet__read`: an incremental reader that gets frames out of however many pieces the network
  cuts them into. */
module FrameReader {
  import opened Common
  import opened Varint

  // ---------- the network ----------

  /** What one `net__read` meets: that many bytes or fewer, no data yet, end of file, or an error. */
  datatype Arrival = Available(n: nat) | Again | Interrupted | Eof | Reset | OtherError

  datatype Errno = EAgain | EIntr | EConnReset | EOther

  class Connection {
    var unread: seq<byte>
    var schedule: seq<Arrival>
    var errno: Errno

    constructor (unread: seq<byte>, schedule: seq<Arrival>, errno: Errno)
      ensures this.unread == unread && this.schedule == schedule && this.errno == errno
    {
      this.unread, this.schedule, this.errno := unread, schedule, errno;
    }

    /** Every read that is still to come gets something while there is anything to get. */
    ghost predicate Plenty()
      reads this
    {
      |unread| <= |schedule| && forall i :: 0 <= i < |schedule| ==> schedule[i].Available? && schedule[i].n > 0
    }

    /** The next read gets nothing. */
    static predicate Interrupts(schedule: seq<Arrival>) {
      schedule != [] && !schedule[0].Available?
    }

    /** What `packet__read` returns if it gets nothing for a command byte. */
    static function Result(a: Arrival): Rc {
      match a
      case Eof => ConnLost
      case Reset => ConnLost
      case OtherError => SystemError
      case _ => Success
    }

    /** Reads at most `count` bytes: the length is positive with that many bytes of data, zero at
      end of file (leaving `errno` alone), and negative on an error, which sets `errno`. */
    method NetRead(count: nat) returns (n: int, data: seq<byte>)
      requires count > 0
      modifies this
      ensures n <= count
      ensures n > 0 ==> old(unread) == data + unread && |data| == n
      ensures n <= 0 ==> unread == old(unread)
      ensures n == 0 ==> errno == old(errno)
      ensures old(Plenty()) ==> Plenty() && (old(unread) != [] ==> n > 0)
      ensures old(schedule) != [] && !old(schedule)[0].Available? ==>
        && n <= 0 && (n == 0 <==> old(schedule)[0] == Eof)
        && (old(schedule)[0] == Again ==> errno == EAgain)
        && (old(schedule)[0] == Interrupted ==> errno == EIntr)
        && (old(schedule)[0] == Reset ==> errno == EConnReset)
        && (old(schedule)[0] == OtherError ==> errno == EOther)
    {
      data := [];
      var arrival := if schedule == [] then Again else schedule[0];
      schedule := if schedule == [] then [] else schedule[1..];
      match arrival {
        case Available(k) =>
          n := if k < count then k else count;
          n := if n < |unread| then n else |unread|;
          if n == 0 {
            n, errno := -1, EAgain;
          } else {
            data := unread[..n];
            unread := unread[n..];
          }
        case Again => n, errno := -1, EAgain;
        case Interrupted => n, errno := -1, EIntr;
        case Eof => n := 0;
        case Reset => n, errno := -1, EConnReset;
        case OtherError => n, errno := -1, EOther;
      }
    }
  }

  // ---------- the decoder, byte by byte ----------

  datatype Frame = Frame(command: byte, payload: seq<byte>)

  /** `in_packet` between two bytes: reading the header (with a zero command meaning that no
    command has been read), reading the body, or given up on. */
  datatype Phase =
    | Header(command: byte, digits: seq<byte>)
    | Body(command: byte, length: nat, data: seq<byte>)
    | Bad

  datatype Decoder = Decoder(phase: Phase, frames: seq<Frame>)

  const IDLE := Header(0, [])

  function Finish(frames: seq<Frame>, command: byte, data: seq<byte>): Decoder {
    Decoder(IDLE, frames + [Frame(command, data)])
  }

  /** One more byte, the command byte having been read. */
  function Next(d: Decoder, b: byte): Decoder {
    match d.phase
    case Bad => d
    case Header(command, digits) =>
      if |digits| == 4 then d.(phase := Bad)
      else if b >= 128 then d.(phase := Header(command, digits + [b]))
      else if Digits(digits + [b]) == 0 then Finish(d.frames, command, [])
      else d.(phase := Body(command, Digits(digits + [b]), []))
    case Body(command, length, data) =>
      if |data| + 1 >= length then Finish(d.frames, command, data + [b])
      else d.(phase := Body(command, length, data + [b]))
  }

  /** The reference decoder: a byte that arrives between frames is a command. */
  function Feed(d: Decoder, b: byte): Decoder {
    if d.phase == IDLE then d.(phase := Header(b, [])) else Next(d, b)
  }

  function FeedAll(d: Decoder, bytes: seq<byte>): Decoder
    decreases |bytes|
  {
    if bytes == [] then d else FeedAll(Feed(d, bytes[0]), bytes[1..])
  }

  function NextAll(d: Decoder, bytes: seq<byte>): Decoder
    decreases |bytes|
  {
    if bytes == [] then d else NextAll(Next(d, bytes[0]), bytes[1..])
  }

  function WithCommand(d: Decoder, b: byte): Decoder {
    match d.phase
    case Header(_, digits) => d.(phase := Header(b, digits))
    case Body(_, length, data) => d.(phase := Body(b, length, data))
    case Bad => d
  }

  /** What ONE call of `packet__read` does with the bytes it consumes.  It reads a command only at
    its start, and whenever the command it remembers is zero, whatever else it remembers. */
  function CallFeed(d: Decoder, bytes: seq<byte>): Decoder {
    if bytes == [] then d
    else if !d.phase.Bad? && d.phase.command == 0 then
      NextAll(WithCommand(d, bytes[0]), bytes[1..])
    else
      NextAll(d, bytes)
  }

  lemma {:induction false} NextAllSnoc(d: Decoder, bytes: seq<byte>, b: byte)
    ensures NextAll(d, bytes + [b]) == Next(NextAll(d, bytes), b)
    decreases |bytes|
  {
    if bytes == [] {
      assert [b][1..] == [];
    } else {
      assert (bytes + [b])[1..] == bytes[1..] + [b];
      NextAllSnoc(Next(d, bytes[0]), bytes[1..], b);
    }
  }

  lemma {:induction false} NextAllAppend(d: Decoder, a: seq<byte>, b: seq<byte>)
    ensures NextAll(d, a + b) == NextAll(NextAll(d, a), b)
    decreases |a|
  {
    if a == [] {
      assert a + b == b;
    } else {
      assert (a + b)[1..] == a[1..] + b;
      NextAllAppend(Next(d, a[0]), a[1..], b);
    }
  }

  /** Part of a body that does not complete it. */
  lemma {:induction false} BodyAll(d: Decoder, bytes: seq<byte>)
    requires d.phase.Body? && |d.phase.data| + |bytes| < d.phase.length
    ensures NextAll(d, bytes) == d.(phase := d.phase.(data := d.phase.data + bytes))
    decreases |bytes|
  {
    if bytes != [] {
      BodyAll(Next(d, bytes[0]), bytes[1..]);
      assert d.phase.data + [bytes[0]] + bytes[1..] == d.phase.data + bytes;
    } else {
      assert d.phase.data + [] == d.phase.data;
    }
  }

  /** Exactly the rest of a body. */
  lemma BodyRest(d: Decoder, bytes: seq<byte>)
    requires d.phase.Body? && bytes != [] && |d.phase.data| + |bytes| == d.phase.length
    ensures NextAll(d, bytes) == Finish(d.frames, d.phase.command, d.phase.data + bytes)
  {
    var n := |bytes| - 1;
    BodyAll(d, bytes[..n]);
    NextAllSnoc(d, bytes[..n], bytes[n]);
    assert bytes[..n] + [bytes[n]] == bytes;
    assert d.phase.data + bytes[..n] + [bytes[n]] == d.phase.data + bytes;
  }

  // ---------- the reader ----------

  /** What `packet__read` asks about the client before it reads. */
  datatype Link = NoSocket | ConnectPending | Open

  class Reader {
    const conn: Connection
    const handler: Frame -> int

    // in_packet
    var command: byte
    var remainingCount: int
    var remainingMult: nat
    var remainingLength: nat
    var payload: array?<byte>
    var toProcess: nat
    var pos: nat

    ghost var digits: seq<byte>  // the length bytes read so far
    var frames: seq<Frame>       // what handle__packet has been given

    ghost predicate Valid()
      reads this, payload
    {
      && remainingMult == Pow128(|digits|)
      && remainingLength == Digits(digits)
      && |digits| <= 4
      && if remainingCount <= 0 then
           && remainingCount == -|digits|
           && (forall i :: 0 <= i < |digits| ==> digits[i] >= 128)
           && toProcess == 0 && pos == 0 && payload == null
         else
           && remainingCount == |digits| && Terminated(digits)
           && remainingLength > 0
           && payload != null && payload.Length == remainingLength
           && pos + toProcess == remainingLength && toProcess > 0
    }

    ghost function Abs(): (d: Decoder)
      requires Valid()
      reads this, payload
      ensures !d.phase.Bad?
    {
      if remainingCount <= 0 then Decoder(Header(command, digits), frames)
      else Decoder(Body(command, remainingLength, payload[..pos]), frames)
    }

    constructor (conn: Connection, handler: Frame -> int)
      ensures Valid() && Abs() == Decoder(IDLE, []) && this.conn == conn && this.handler == handler
      ensures payload == null
    {
      this.conn, this.handler := conn, handler;
      command, remainingCount, remainingMult, remainingLength := 0, 0, 1, 0;
      payload, toProcess, pos := null, 0, 0;
      digits, frames := [], [];
    }

    method PacketCleanup()
      modifies this
      ensures Valid() && Abs() == Decoder(IDLE, old(frames)) && payload == null && frames == old(frames)
    {
      command := 0;
      remainingCount := 0;
      remainingMult := 1;
      remainingLength := 0;
      payload := null;
      toProcess := 0;
      pos := 0;
      digits := [];
    }

    /** The result of a failed `net__read`. */
    method ErrnoResult() returns (rc: Rc)
      ensures rc == Success <==> conn.errno == EAgain || conn.errno == EIntr
      ensures rc == ConnLost <==> conn.errno == EConnReset
      ensures rc == SystemError <==> conn.errno == EOther
    {
      match conn.errno {
        case EAgain => rc := Success;
        case EConnReset => rc := ConnLost;
        case EIntr => rc := Success;
        case EOther => rc := SystemError;
      }
    }

    /** The first part: the command byte. */
    method ReadCommand() returns (done: bool, rc: Rc, ghost taken: seq<byte>)
      requires Valid()
      modifies this, conn
      ensures Valid() && payload == old(payload) && frames == old(frames)
      ensures (payload != null ==> payload[..] == old(if payload == null then [] else payload[..]))
      ensures old(conn.unread) == taken + conn.unread
      ensures done ==> taken == [] && Abs() == old(Abs())
      ensures rc != Malformed
      ensures !done ==> |taken| == (if old(command) == 0 then 1 else 0)
      ensures !done ==> remainingCount == old(remainingCount) && digits == old(digits)
      ensures !done && taken == [] ==> Abs() == old(Abs())
      ensures !done && taken != [] ==> Abs() == WithCommand(old(Abs()), taken[0])
      ensures old(conn.Plenty()) ==> conn.Plenty() && (old(conn.unread) != [] ==> !done)
      ensures old(command == 0) && Connection.Interrupts(old(conn.schedule)) ==>
        done && rc == Connection.Result(old(conn.schedule)[0])
    {
      taken := [];
      done, rc := false, Success;
      if command == 0 {
        var n, data := conn.NetRead(1);
        if n == 1 {
          taken := data;
          command := data[0];
        } else {
          done := true;
          if n == 0 {
            rc := ConnLost;
          } else {
            rc := ErrnoResult();
          }
        }
      }
    }

    /** One more digit of the length. */
    method TakeDigit(b: byte)
      requires remainingMult == Pow128(|digits|) && remainingLength == Digits(digits)
      modifies `remainingLength, `remainingMult, `digits
      ensures digits == old(digits) + [b]
      ensures remainingMult == Pow128(|digits|) && remainingLength == Digits(digits)
    {
      DigitsSnoc(digits, b);
      remainingLength := remainingLength + b % 128 * remainingMult;
      remainingMult := remainingMult * 128;
      digits := digits + [b];
    }

    /** Reads one length byte into the fields: Success with the byte, or the result to return. */
    method ReadLengthByte() returns (b: Option<byte>, rc: Rc, ghost taken: seq<byte>)
      requires Valid() && remainingCount <= 0
      modifies this, conn
      ensures frames == old(frames) && command == old(command) && payload == null && toProcess == 0 && pos == 0
      ensures old(conn.unread) == taken + conn.unread
      ensures b.None? && rc != Malformed ==> taken == [] && Valid() && Abs() == old(Abs())
      ensures rc == Malformed ==> b.None? && |taken| == 1 && |old(digits)| == 4
      ensures b.Some? ==> taken == [b.value] && |old(digits)| < 4 && digits == old(digits) + taken
      ensures b.Some? ==>
        remainingCount == -|digits| && remainingLength == Digits(digits) && remainingMult == Pow128(|digits|)
      ensures old(conn.Plenty()) ==> conn.Plenty() && (old(conn.unread) != [] ==> taken != [])
    {
      taken := [];
      b := None;
      var n, data := conn.NetRead(1);
      if n == 1 {
        taken := data;
        remainingCount := remainingCount - 1;
        if remainingCount < -4 {
          return None, Malformed, taken;
        }
        TakeDigit(data[0]);
        b, rc := Some(data[0]), Success;
      } else if n == 0 {
        rc := ConnLost;
      } else {
        rc := ErrnoResult();
      }
    }

    /** The loop over the length bytes, until one has its top bit clear. */
    method ReadLengthBytes() returns (done: bool, rc: Rc, ghost taken: seq<byte>)
      requires Valid() && remainingCount <= 0
      modifies this, conn
      ensures frames == old(frames) && payload == null && toProcess == 0 && pos == 0
      ensures old(conn.unread) == taken + conn.unread
      ensures rc == Malformed ==> done && NextAll(old(Abs()), taken) == Decoder(Bad, frames)
      ensures done && rc != Malformed ==> Valid() && Abs() == NextAll(old(Abs()), taken)
      ensures !done ==> rc != Malformed && command == old(command)
      ensures !done ==> remainingCount == -|digits| && |digits| <= 4 && Terminated(digits)
      ensures !done ==> remainingMult == Pow128(|digits|) && remainingLength == Digits(digits)
      ensures !done && remainingLength == 0 ==> NextAll(old(Abs()), taken) == Finish(frames, command, [])
      ensures !done && remainingLength > 0 ==>
        NextAll(old(Abs()), taken) == Decoder(Body(command, remainingLength, []), frames)
      ensures old(conn.Plenty()) ==> conn.Plenty() && (old(conn.unread) != [] ==> taken != [])
    {
      taken := [];
      done := true;
      ghost var start := Abs();
      while true
        invariant Valid() && remainingCount <= 0
        invariant frames == old(frames) && command == old(command)
        invariant old(conn.unread) == taken + conn.unread
        invariant Abs() == NextAll(start, taken)
        invariant old(conn.Plenty()) ==> conn.Plenty()
        decreases 5 - |digits|
      {
        ghost var more;
        var b: Option<byte>;
        b, rc, more := ReadLengthByte();
        if b.None? {
          if rc == Malformed {
            NextAllSnoc(start, taken, more[0]);
            assert more == [more[0]];
            taken := taken + more;
          }
          return;
        }
        NextAllSnoc(start, taken, b.value);
        taken := taken + more;
        if b.value < 128 {
          break;
        }
      }
      done := false;
    }

    /** The second part: the length bytes, and the buffer for the body. */
    method ReadLength() returns (done: bool, rc: Rc, ghost taken: seq<byte>)
      requires Valid() && remainingCount <= 0
      modifies this, conn
      ensures frames == old(frames)
      ensures old(conn.unread) == taken + conn.unread
      ensures rc == Malformed <==> NextAll(old(Abs()), taken).phase == Bad
      ensures rc == Malformed ==> done && NextAll(old(Abs()), taken) == Decoder(Bad, frames)
      ensures done && rc != Malformed ==> Valid() && Abs() == NextAll(old(Abs()), taken)
      ensures done ==> payload == null
      ensures !done ==> command == old(command)
      ensures !done && remainingLength > 0 ==> Valid() && remainingCount > 0 && Abs() == NextAll(old(Abs()), taken)
      ensures !done && remainingLength > 0 ==> fresh(payload)
      ensures !done && remainingLength == 0 ==> toProcess == 0 && payload == null
      ensures !done && remainingLength == 0 ==> NextAll(old(Abs()), taken) == Finish(frames, command, [])
      ensures old(conn.Plenty()) ==> conn.Plenty() && (old(conn.unread) != [] ==> taken != [])
    {
      done, rc, taken := ReadLengthBytes();
      if done {
        return;
      }
      remainingCount := -remainingCount;
      if remainingLength > 0 {
        payload := new byte[remainingLength];
        toProcess := remainingLength;
        assert payload[..pos] == [];
      }
    }

    /** The third part: the body.  An end of file here leaves `errno` as it was, and the stale
      value decides. */
    method ReadBody() returns (done: bool, rc: Rc, ghost taken: seq<byte>)
      requires Valid() && remainingCount > 0
      modifies this, conn, payload
      ensures frames == old(frames) && command == old(command) && payload == old(payload)
      ensures old(conn.unread) == taken + conn.unread
      ensures done ==> Valid() && Abs() == NextAll(old(Abs()), taken)
      ensures !done ==> toProcess == 0 && NextAll(old(Abs()), taken) == Finish(frames, command, payload[..])
      ensures rc != Malformed
      ensures done ==> (rc == Success <==> conn.errno == EAgain || conn.errno == EIntr)
      ensures done ==> (rc == ConnLost <==> conn.errno == EConnReset)
      ensures old(conn.Plenty()) ==> conn.Plenty() && (old(conn.unread) != [] ==> taken != [])
    {
      taken := [];
      done, rc := true, Success;
      ghost var start := Abs();
      while toProcess > 0
        invariant payload == old(payload) && frames == old(frames) && command == old(command)
        invariant digits == old(digits) && remainingCount == old(remainingCount)
        invariant remainingLength == old(remainingLength) && remainingMult == old(remainingMult)
        invariant pos + toProcess == remainingLength == payload.Length
        invariant payload[..pos] == start.phase.data + taken
        invariant old(conn.unread) == taken + conn.unread
        invariant old(conn.Plenty()) ==> conn.Plenty()
      {
        var n, data := conn.NetRead(toProcess);
        if n <= 0 {
          BodyAll(start, taken);
          rc := ErrnoResult();
          return;
        }
        Store(data);
        taken := taken + data;
      }
      done := false;
      assert payload[..pos] == payload[..];
      BodyRest(start, taken);
    }

    /** `net__read` writes into the buffer; then the two counters move. */
    method Store(data: seq<byte>)
      requires payload != null && pos + |data| <= payload.Length && |data| <= toProcess
      modifies payload, `pos, `toProcess
      ensures payload[..old(pos) + |data|] == old(payload[..pos]) + data
      ensures pos == old(pos) + |data| && toProcess == old(toProcess) - |data|
    {
      forall i | 0 <= i < |data| {
        payload[pos + i] := data[i];
      }
      toProcess := toProcess - |data|;
      pos := pos + |data|;
    }

    /** `handle__packet`, then everything is set back. */
    method HandlePacket() returns (rc: Rc)
      requires toProcess == 0
      modifies this
      ensures Valid() && payload == null && rc != Malformed
      ensures Abs() == Finish(old(frames), old(command), old(if payload == null then [] else payload[..]))
      ensures var code := handler(Frame(old(command), old(if payload == null then [] else payload[..])));
        rc == if code == 0 then Success else Handler(code)
    {
      var frame := Frame(command, if payload == null then [] else payload[..]);
      pos := 0;
      frames := frames + [frame];
      var code := handler(frame);
      PacketCleanup();
      rc := if code == 0 then Success else Handler(code);
    }

    /** Everything up to the body. */
    method ReadHeader() returns (done: bool, rc: Rc, ghost taken: seq<byte>)
      requires Valid()
      modifies this, conn
      ensures frames == old(frames)
      ensures old(conn.unread) == taken + conn.unread
      ensures rc == Malformed <==> CallFeed(old(Abs()), taken).phase == Bad
      ensures rc == Malformed ==> done && CallFeed(old(Abs()), taken) == Decoder(Bad, frames)
      ensures done && rc != Malformed ==> Valid() && Abs() == CallFeed(old(Abs()), taken)
      ensures payload == null || payload == old(payload) || fresh(payload)
      ensures !done ==> old(command) != 0 || taken != []
      ensures !done && toProcess > 0 ==> Valid() && remainingCount > 0 && Abs() == CallFeed(old(Abs()), taken)
      ensures !done && toProcess == 0 ==> payload == null && CallFeed(old(Abs()), taken) == Finish(frames, command, [])
      ensures old(conn.Plenty()) ==> conn.Plenty()
      ensures old(conn.Plenty() && conn.unread != []) && taken == [] ==> !done && toProcess > 0
      ensures old(command == 0) && Connection.Interrupts(old(conn.schedule)) ==>
        done && taken == [] && rc == Connection.Result(old(conn.schedule)[0])
    {
      ghost var start, more := Abs(), [];
      done, rc, taken := ReadCommand();
      if done {
        return;
      }
      if remainingCount <= 0 {
        ghost var first := taken;
        done, rc, more := ReadLength();
        taken := first + more;
        CallFeedExtend(start, first, more);
      }
    }

    /** `packet__read`.  While there is anything to get, a call with an open connection gets
      something. */
    method PacketRead(link: Link) returns (rc: Rc, ghost taken: seq<byte>)
      requires Valid()
      modifies this, conn, payload
      ensures old(conn.unread) == taken + conn.unread
      ensures rc == Malformed <==> CallFeed(old(Abs()), taken) == Decoder(Bad, old(frames))
      ensures rc != Malformed ==> Valid() && Abs() == CallFeed(old(Abs()), taken)
      ensures rc != Malformed ==> frames == old(frames) || (Abs().phase == IDLE && |frames| == |old(frames)| + 1)
      ensures payload == null || payload == old(payload) || fresh(payload)
      ensures link != Open ==> taken == [] && rc == if link == NoSocket then NoConn else Success
      ensures old(conn.Plenty()) ==> conn.Plenty()
      ensures old(conn.Plenty() && conn.unread != []) && link == Open ==> taken != []
      ensures link == Open && old(command == 0) && Connection.Interrupts(old(conn.schedule)) ==>
        taken == [] && rc == Connection.Result(old(conn.schedule)[0])
    {
      if link == NoSocket {
        return NoConn, [];
      }
      if link == ConnectPending {
        return Success, [];
      }
      var done: bool;
      ghost var start, more := Abs(), [];
      done, rc, taken := ReadHeader();
      if done {
        return;
      }
      if toProcess > 0 {
        ghost var first := taken;
        done, rc, more := ReadBody();
        taken := first + more;
        CallFeedExtend(start, first, more);
        if done {
          return;
        }
      }
      rc := HandlePacket();
    }
  }

  lemma CallFeedExtend(d: Decoder, first: seq<byte>, more: seq<byte>)
    requires !d.phase.Bad? && (d.phase.command != 0 || first != [])
    ensures CallFeed(d, first + more) == NextAll(CallFeed(d, first), more)
  {
    if d.phase.command == 0 {
      assert (first + more)[1..] == first[1..] + more;
      NextAllAppend(WithCommand(d, first[0]), first[1..], more);
    } else {
      NextAllAppend(d, first, more);
      assert first == [] ==> first + more == more;
    }
  }
}
