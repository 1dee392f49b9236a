/** What `packet__read` hands over does not depend on how the network cuts up the stream. */
module FrameStream {
  import opened Common
  import opened Varint
  import opened FrameReader

  // ---------- one call against the reference decoder ----------

  /** A decoder that remembers a command, or stands between frames. */
  predicate Clean(d: Decoder) {
    d.phase == IDLE || (!d.phase.Bad? && d.phase.command != 0)
  }

  /** No byte that arrives between frames is zero. */
  predicate NonZeroCommands(d: Decoder, bytes: seq<byte>)
    decreases |bytes|
  {
    bytes == [] || ((d.phase == IDLE ==> bytes[0] != 0) && NonZeroCommands(Feed(d, bytes[0]), bytes[1..]))
  }

  lemma {:induction false} FeedAllAppend(d: Decoder, a: seq<byte>, b: seq<byte>)
    ensures FeedAll(d, a + b) == FeedAll(FeedAll(d, a), b)
    ensures NonZeroCommands(d, a + b) <==> NonZeroCommands(d, a) && NonZeroCommands(FeedAll(d, a), b)
    decreases |a|
  {
    if a == [] {
      assert a + b == b;
    } else {
      assert (a + b)[1..] == a[1..] + b;
      FeedAllAppend(Feed(d, a[0]), a[1..], b);
    }
  }

  lemma {:induction false} NextAllGrows(d: Decoder, bytes: seq<byte>)
    ensures var r := NextAll(d, bytes);
            |r.frames| >= |d.frames| && (bytes != [] && |r.frames| == |d.frames| ==> r.phase != IDLE)
    decreases |bytes|
  {
    if bytes != [] {
      NextAllGrows(Next(d, bytes[0]), bytes[1..]);
    }
  }

  lemma {:induction false} NextIsFeed(d: Decoder, bytes: seq<byte>)
    requires d.phase != IDLE
    requires var r := NextAll(d, bytes);
             r.frames == d.frames || (r.phase == IDLE && |r.frames| == |d.frames| + 1)
    ensures FeedAll(d, bytes) == NextAll(d, bytes)
    ensures NonZeroCommands(d, bytes)
    decreases |bytes|
  {
    if bytes != [] {
      var e := Next(d, bytes[0]);
      assert Feed(d, bytes[0]) == e;
      if e.phase == IDLE {
        NextAllGrows(e, bytes[1..]);
        assert bytes[1..] == [];
      } else {
        NextAllGrows(e, bytes[1..]);
        NextIsFeed(e, bytes[1..]);
      }
    }
  }

  lemma {:induction false} NextKeepsClean(d: Decoder, bytes: seq<byte>)
    requires d.phase != IDLE && Clean(d)
    requires var r := NextAll(d, bytes);
             r.frames == d.frames || (r.phase == IDLE && |r.frames| == |d.frames| + 1)
    ensures NextAll(d, bytes).phase.Bad? || Clean(NextAll(d, bytes))
    decreases |bytes|
  {
    if bytes != [] {
      var e := Next(d, bytes[0]);
      NextAllGrows(e, bytes[1..]);
      if e.phase == IDLE {
        assert bytes[1..] == [];
      } else if e.phase.Bad? {
        BadStays(e, bytes[1..]);
      } else {
        NextKeepsClean(e, bytes[1..]);
      }
    }
  }

  lemma {:induction false} BadStays(d: Decoder, bytes: seq<byte>)
    requires d.phase.Bad?
    ensures FeedAll(d, bytes) == NextAll(d, bytes) == d
    decreases |bytes|
  {
    if bytes != [] {
      BadStays(d, bytes[1..]);
    }
  }

  /** One call does with its bytes what the reference decoder does. */
  lemma CallIsFeed(d: Decoder, bytes: seq<byte>)
    requires Clean(d) && (bytes != [] && d.phase == IDLE ==> bytes[0] != 0)
    requires var r := CallFeed(d, bytes);
             r.frames == d.frames || (r.phase == IDLE && |r.frames| == |d.frames| + 1)
    ensures CallFeed(d, bytes) == FeedAll(d, bytes)
    ensures CallFeed(d, bytes).phase.Bad? || Clean(CallFeed(d, bytes))
    ensures NonZeroCommands(d, bytes)
  {
    if bytes != [] {
      var e, rest := d, bytes;
      if d.phase == IDLE {
        e, rest := WithCommand(d, bytes[0]), bytes[1..];
        assert Feed(d, bytes[0]) == e;
      }
      NextIsFeed(e, rest);
      NextKeepsClean(e, rest);
    }
  }

  /** When the network may pause between two bytes and when it does not, exactly the command bytes
    other than zero give the same result: after a zero byte the reader has forgotten that it read
    anything. */
  lemma PauseIndependentIff(frames: seq<Frame>, b: byte)
    ensures var d := Decoder(IDLE, frames);
            (forall x: byte :: CallFeed(CallFeed(d, [b]), [x]) == CallFeed(d, [b, x])) <==> b != 0
  {
    var d := Decoder(IDLE, frames);
    var e := Decoder(Header(b, []), frames);
    assert [b][1..] == [];
    assert CallFeed(d, [b]) == NextAll(WithCommand(d, b), []) == e;
    forall x: byte
      ensures CallFeed(CallFeed(d, [b]), [x]) == CallFeed(d, [b, x]) <==> b != 0
    {
      assert [x][1..] == [] && [b, x][1..] == [x];
      assert CallFeed(d, [b, x]) == NextAll(e, [x]) == Next(e, x);
      assert [] + [x] == [x] && Digits([x]) == x % 128 + 128 * Digits([]);
      if b == 0 {
        assert CallFeed(e, [x]) == Decoder(Header(x, []), frames);
      } else {
        assert CallFeed(e, [x]) == NextAll(e, [x]);
      }
    }
    assert CallFeed(CallFeed(d, [b]), [1]) == CallFeed(d, [b, 1]) <==> b != 0;
  }

  /** One call on a stream whose commands are not zero. */
  method ReadOne(r: Reader, link: Link) returns (rc: Rc, ghost taken: seq<byte>)
    requires r.Valid() && Clean(r.Abs()) && NonZeroCommands(r.Abs(), r.conn.unread)
    modifies r, r.conn, r.payload
    ensures old(r.conn.unread) == taken + r.conn.unread
    ensures rc == Malformed <==> FeedAll(old(r.Abs()), taken).phase.Bad?
    ensures rc != Malformed ==> r.Valid() && r.Abs() == FeedAll(old(r.Abs()), taken)
    ensures rc != Malformed ==> Clean(r.Abs()) && NonZeroCommands(r.Abs(), r.conn.unread)
    ensures r.payload == null || r.payload == old(r.payload) || fresh(r.payload)
    ensures old(r.conn.Plenty()) ==> r.conn.Plenty()
    ensures old(r.conn.Plenty() && r.conn.unread != []) && link == Open ==> taken != []
  {
    ghost var d := r.Abs();
    rc, taken := r.PacketRead(link);
    assert taken != [] ==> old(r.conn.unread)[0] == taken[0];
    CallIsFeed(d, taken);
    FeedAllAppend(d, taken, r.conn.unread);
  }

  /** Any number of calls of `packet__read`, as the network loop makes them, whatever the network
    delivers to each: what has been handed over, and what `in_packet` remembers, is a function of
    the bytes consumed.  It stops when the connection is beyond repair.  If every read gets
    something while there is anything to get, enough calls get it all. */
  method ReadMany(r: Reader, calls: seq<Link>) returns (rc: Rc, ghost taken: seq<byte>)
    requires r.Valid() && Clean(r.Abs()) && NonZeroCommands(r.Abs(), r.conn.unread)
    modifies r, r.conn, r.payload
    ensures old(r.conn.unread) == taken + r.conn.unread
    ensures rc == Malformed <==> FeedAll(old(r.Abs()), taken).phase.Bad?
    ensures rc != Malformed ==> r.Valid() && r.Abs() == FeedAll(old(r.Abs()), taken)
    ensures rc != Malformed && old(r.conn.Plenty() && |r.conn.unread| <= |calls|) && AllOpen(calls) ==>
      r.conn.unread == []
  {
    taken, rc := [], Success;
    ghost var start := r.Abs();
    var i := 0;
    while i < |calls|
      invariant i <= |calls| && r.Valid() && Clean(r.Abs()) && NonZeroCommands(r.Abs(), r.conn.unread)
      invariant r.payload == null || r.payload == old(r.payload) || fresh(r.payload)
      invariant old(r.conn.unread) == taken + r.conn.unread
      invariant r.Abs() == FeedAll(start, taken) && rc != Malformed
      invariant old(r.conn.Plenty()) ==> r.conn.Plenty()
      invariant old(r.conn.Plenty()) && AllOpen(calls) ==> r.conn.unread == [] || |taken| >= i
    {
      ghost var more;
      rc, more := ReadOne(r, calls[i]);
      FeedAllAppend(start, taken, more);
      taken := taken + more;
      if rc == Malformed {
        return;
      }
      i := i + 1;
    }
  }

  predicate AllOpen(calls: seq<Link>) {
    forall i :: 0 <= i < |calls| ==> calls[i] == Open
  }

  // ---------- frames on the wire ----------

  /** A frame with its length bytes as sent, which may be overlong: `packet__read` accepts any
    list of at most four digits. */
  datatype Raw = Raw(command: byte, lengthBytes: seq<byte>, payload: seq<byte>)

  predicate WellFormed(r: Raw) {
    r.command != 0 && Terminated(r.lengthBytes) && |r.lengthBytes| <= 4 && Digits(r.lengthBytes) == |r.payload|
  }

  function RawBytes(r: Raw): seq<byte> {
    [r.command] + r.lengthBytes + r.payload
  }

  function Stream(rs: seq<Raw>): seq<byte> {
    if rs == [] then [] else RawBytes(rs[0]) + Stream(rs[1..])
  }

  function FramesOf(rs: seq<Raw>): (fs: seq<Frame>)
    ensures |fs| == |rs|
  {
    if rs == [] then [] else [Frame(rs[0].command, rs[0].payload)] + FramesOf(rs[1..])
  }

  /** The frame `packet__alloc` and the writers lay out. */
  function Canonical(f: Frame): Raw {
    Raw(f.command, Encode(|f.payload|), f.payload)
  }

  lemma CanonicalWellFormed(f: Frame)
    requires f.command != 0 && |f.payload| < VARINT_LIMIT
    ensures WellFormed(Canonical(f))
  {
    EncodeTerminated(|f.payload|);
    DigitsOfEncode(|f.payload|);
    EncodeLength(|f.payload|);
  }

  lemma {:induction false} DigitsAll(command: byte, ds: seq<byte>, more: seq<byte>, fs: seq<Frame>)
    requires (forall i :: 0 <= i < |ds| ==> ds[i] >= 128) && Terminated(more) && |ds| + |more| <= 4
    ensures NextAll(Decoder(Header(command, ds), fs), more) ==
              if Digits(ds + more) == 0 then Finish(fs, command, [])
              else Decoder(Body(command, Digits(ds + more), []), fs)
    decreases |more|
  {
    var b, t := more[0], more[1..];
    if |more| == 1 {
      assert t == [] && more == [b];
    } else {
      assert forall i :: 0 <= i < |t| ==> t[i] == more[i + 1];
      assert ds + [b] + t == ds + more;
      DigitsAll(command, ds + [b], t, fs);
    }
  }

  lemma NextRaw(r: Raw, fs: seq<Frame>)
    requires WellFormed(r)
    ensures NextAll(Decoder(Header(r.command, []), fs), r.lengthBytes + r.payload) == Finish(fs, r.command, r.payload)
  {
    var e := Decoder(Header(r.command, []), fs);
    assert [] + r.lengthBytes == r.lengthBytes;
    DigitsAll(r.command, [], r.lengthBytes, fs);
    NextAllAppend(e, r.lengthBytes, r.payload);
    if r.payload != [] {
      BodyRest(Decoder(Body(r.command, |r.payload|, []), fs), r.payload);
      assert [] + r.payload == r.payload;
    }
  }

  lemma FeedRaw(r: Raw, fs: seq<Frame>)
    requires WellFormed(r)
    ensures FeedAll(Decoder(IDLE, fs), RawBytes(r)) == Finish(fs, r.command, r.payload)
    ensures NonZeroCommands(Decoder(IDLE, fs), RawBytes(r))
  {
    var d := Decoder(IDLE, fs);
    var bytes := RawBytes(r);
    assert bytes[0] == r.command && bytes[1..] == r.lengthBytes + r.payload;
    NextRaw(r, fs);
    assert CallFeed(d, bytes) == Finish(fs, r.command, r.payload);
    CallIsFeed(d, bytes);
  }

  lemma FramesOfHead(rs: seq<Raw>, fs: seq<Frame>)
    requires rs != []
    ensures fs + FramesOf(rs) == fs + [Frame(rs[0].command, rs[0].payload)] + FramesOf(rs[1..])
  {
  }

  /** Whatever frames are sent, the reference decoder yields exactly those. */
  lemma {:induction false} FeedStream(rs: seq<Raw>, fs: seq<Frame>)
    requires forall i :: 0 <= i < |rs| ==> WellFormed(rs[i])
    ensures FeedAll(Decoder(IDLE, fs), Stream(rs)) == Decoder(IDLE, fs + FramesOf(rs))
    ensures NonZeroCommands(Decoder(IDLE, fs), Stream(rs))
    decreases |rs|
  {
    if rs == [] {
      assert fs + [] == fs;
    } else {
      var r, rest := rs[0], rs[1..];
      var next := fs + [Frame(r.command, r.payload)];
      FeedRaw(r, fs);
      FeedStream(rest, next);
      FramesOfHead(rs, fs);
      FeedAllAppend(Decoder(IDLE, fs), RawBytes(r), Stream(rest));
    }
  }

  lemma {:induction false} FeedGrows(d: Decoder, bytes: seq<byte>)
    ensures d.frames <= FeedAll(d, bytes).frames
    decreases |bytes|
  {
    if bytes != [] {
      FeedGrows(Feed(d, bytes[0]), bytes[1..]);
    }
  }

  /** However much of a stream has been consumed, the frames handed over are the first ones sent,
    and once all of it has been, they are all of them. */
  lemma DeliveredInOrder(rs: seq<Raw>, taken: seq<byte>)
    requires forall i :: 0 <= i < |rs| ==> WellFormed(rs[i])
    requires taken <= Stream(rs)
    ensures FeedAll(Decoder(IDLE, []), taken).frames <= FramesOf(rs)
    ensures taken == Stream(rs) ==> FeedAll(Decoder(IDLE, []), taken) == Decoder(IDLE, FramesOf(rs))
  {
    var rest := Stream(rs)[|taken|..];
    assert taken + rest == Stream(rs);
    FeedStream(rs, []);
    assert [] + FramesOf(rs) == FramesOf(rs);
    FeedAllAppend(Decoder(IDLE, []), taken, rest);
    FeedGrows(FeedAll(Decoder(IDLE, []), taken), rest);
  }

  lemma StreamNotBad(rs: seq<Raw>, taken: seq<byte>)
    requires forall i :: 0 <= i < |rs| ==> WellFormed(rs[i])
    requires taken <= Stream(rs)
    ensures !FeedAll(Decoder(IDLE, []), taken).phase.Bad?
  {
    var rest := Stream(rs)[|taken|..];
    assert taken + rest == Stream(rs);
    FeedStream(rs, []);
    FeedAllAppend(Decoder(IDLE, []), taken, rest);
    if FeedAll(Decoder(IDLE, []), taken).phase.Bad? {
      BadStays(FeedAll(Decoder(IDLE, []), taken), rest);
    }
  }

  /** The reader on a connection that carries well-formed frames: after any calls, whatever each of
    them meets, the frames handed over are the first ones sent; once everything has been consumed
    they are all of them; and with a network that delivers, enough calls consume everything. */
  method ReadStream(r: Reader, ghost rs: seq<Raw>, calls: seq<Link>) returns (rc: Rc)
    requires r.Valid() && r.Abs() == Decoder(IDLE, [])
    requires r.conn.unread == Stream(rs) && forall i :: 0 <= i < |rs| ==> WellFormed(rs[i])
    modifies r, r.conn, r.payload
    ensures rc != Malformed && r.Valid()
    ensures r.frames <= FramesOf(rs)
    ensures r.conn.unread == [] ==> r.frames == FramesOf(rs) && r.Abs() == Decoder(IDLE, FramesOf(rs))
    ensures old(r.conn.Plenty()) && |Stream(rs)| <= |calls| && AllOpen(calls) ==> r.conn.unread == []
  {
    FeedStream(rs, []);
    ghost var taken;
    rc, taken := ReadMany(r, calls);
    assert taken + r.conn.unread == Stream(rs);
    StreamNotBad(rs, taken);
    DeliveredInOrder(rs, taken);
    assert taken + [] == taken;
  }

  lemma {:induction false} StreamSnoc(rs: seq<Raw>, r: Raw)
    ensures Stream(rs + [r]) == Stream(rs) + RawBytes(r)
    ensures FramesOf(rs + [r]) == FramesOf(rs) + [Frame(r.command, r.payload)]
    decreases |rs|
  {
    if rs == [] {
      assert (rs + [r])[1..] == [];
      assert Stream([]) == [];
    } else {
      assert (rs + [r])[1..] == rs[1..] + [r];
      StreamSnoc(rs[1..], r);
    }
  }

  /** The bytes of the frame being read. */
  predicate TailOf(p: Phase, tail: seq<byte>, lengthBytes: seq<byte>) {
    match p
    case Bad => false
    case Header(c, ds) =>
      if p == IDLE then tail == []
      else c != 0 && tail == [c] + ds && |ds| <= 4 && forall i :: 0 <= i < |ds| ==> ds[i] >= 128
    case Body(c, length, data) =>
      && c != 0 && tail == [c] + lengthBytes + data
      && Terminated(lengthBytes) && |lengthBytes| <= 4 && Digits(lengthBytes) == length
      && |data| < length
  }

  /** Conversely, the decoder makes nothing up: unless it has given up, the bytes it consumed are
    those of the frames handed over followed by those of the frame it is in the middle of. */
  lemma {:induction false} Explain(bytes: seq<byte>) returns (rs: seq<Raw>, tail: seq<byte>, lengthBytes: seq<byte>)
    requires NonZeroCommands(Decoder(IDLE, []), bytes)
    requires !FeedAll(Decoder(IDLE, []), bytes).phase.Bad?
    ensures bytes == Stream(rs) + tail
    ensures forall i :: 0 <= i < |rs| ==> WellFormed(rs[i])
    ensures FramesOf(rs) == FeedAll(Decoder(IDLE, []), bytes).frames
    ensures TailOf(FeedAll(Decoder(IDLE, []), bytes).phase, tail, lengthBytes)
    decreases |bytes|
  {
    if bytes == [] {
      rs, tail, lengthBytes := [], [], [];
    } else {
      var a, b := bytes[..|bytes| - 1], bytes[|bytes| - 1];
      assert a + [b] == bytes;
      var d := FeedSnoc(a, b);
      rs, tail, lengthBytes := Explain(a);
      assert bytes == Stream(rs) + (tail + [b]);
      rs, tail, lengthBytes := ExplainSnoc(rs, d, tail, lengthBytes, b);
    }
  }

  lemma FeedSnoc(a: seq<byte>, b: byte) returns (d: Decoder)
    requires NonZeroCommands(Decoder(IDLE, []), a + [b])
    requires !FeedAll(Decoder(IDLE, []), a + [b]).phase.Bad?
    ensures d == FeedAll(Decoder(IDLE, []), a) && FeedAll(Decoder(IDLE, []), a + [b]) == Feed(d, b)
    ensures NonZeroCommands(Decoder(IDLE, []), a) && !d.phase.Bad? && (d.phase == IDLE ==> b != 0)
  {
    FeedAllAppend(Decoder(IDLE, []), a, [b]);
    d := FeedAll(Decoder(IDLE, []), a);
    assert [b][1..] == [];
    assert FeedAll(d, [b]) == FeedAll(Feed(d, b), []) == Feed(d, b);
    if d.phase.Bad? {
      BadStays(d, [b]);
    }
  }

  lemma ExplainSnoc(rs: seq<Raw>, d: Decoder, tail: seq<byte>, lengthBytes: seq<byte>, b: byte)
    returns (rs': seq<Raw>, tail': seq<byte>, lengthBytes': seq<byte>)
    requires TailOf(d.phase, tail, lengthBytes) && (d.phase == IDLE ==> b != 0) && !Feed(d, b).phase.Bad?
    requires forall i :: 0 <= i < |rs| ==> WellFormed(rs[i])
    requires FramesOf(rs) == d.frames
    ensures Stream(rs') + tail' == Stream(rs) + (tail + [b])
    ensures forall i :: 0 <= i < |rs'| ==> WellFormed(rs'[i])
    ensures FramesOf(rs') == Feed(d, b).frames
    ensures TailOf(Feed(d, b).phase, tail', lengthBytes')
  {
    ExplainByte(d, tail, lengthBytes, b);
    if Feed(d, b).frames != d.frames {
      var r := RawOf(d, tail, lengthBytes, b);
      StreamSnoc(rs, r);
      rs', tail', lengthBytes' := rs + [r], [], [];
    } else {
      rs', tail' := rs, tail + [b];
      lengthBytes' := if d.phase.Header? && Feed(d, b).phase.Body? then d.phase.digits + [b] else lengthBytes;
    }
  }

  /** The frame that the byte b completes. */
  function RawOf(d: Decoder, tail: seq<byte>, lengthBytes: seq<byte>, b: byte): Raw
    requires TailOf(d.phase, tail, lengthBytes)
  {
    match d.phase
    case Header(c, ds) => Raw(c, ds + [b], [])
    case Body(c, _, data) => Raw(c, lengthBytes, data + [b])
  }

  lemma ExplainByte(d: Decoder, tail: seq<byte>, lengthBytes: seq<byte>, b: byte)
    requires TailOf(d.phase, tail, lengthBytes)
    requires d.phase == IDLE ==> b != 0
    requires !Feed(d, b).phase.Bad?
    ensures var e := Feed(d, b);
            if e.frames != d.frames then
              var r := RawOf(d, tail, lengthBytes, b);
              e == Finish(d.frames, r.command, r.payload) && WellFormed(r) && RawBytes(r) == tail + [b]
            else
              TailOf(e.phase, tail + [b],
                     if d.phase.Header? && e.phase.Body? then d.phase.digits + [b] else lengthBytes)
  {
  }
}
