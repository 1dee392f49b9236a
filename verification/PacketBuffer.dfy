/** `struct mosquitto__packet` as a buffer: allocation with its fixed header, the typed writers,
  and the typed readers, which are exact inverses of them. */
module PacketBuffer {
  import opened Common
  import opened Varint

  /** Big-endian 16 and 32 bit words. */
  function Uint16(w: nat): (s: seq<byte>)
    requires w < 0x1_0000
    ensures |s| == 2
  {
    [w / 256, w % 256]
  }

  function Uint32(w: nat): (s: seq<byte>)
    requires w < UINT32_LIMIT
    ensures |s| == 4
  {
    [w / 0x100_0000, w / 0x1_0000 % 256, w / 256 % 256, w % 256]
  }

  /** Length-prefixed bytes. */
  function Text(s: seq<byte>): seq<byte>
    requires |s| < 0x1_0000
  {
    Uint16(|s|) + s
  }

  /** No value below 2^28 has its encoding at the start of these bytes. */
  ghost predicate NoEncoding(u: seq<byte>) {
    forall w: nat :: w < VARINT_LIMIT ==> !(Encode(w) <= u)
  }

  class Packet {
    var command: byte
    var remainingLength: nat
    var remainingCount: nat
    var packetLength: nat
    var pos: nat
    var payload: array<byte>

    /** A packet about to be allocated and written. */
    constructor (command: byte, remainingLength: nat)
      ensures this.command == command && this.remainingLength == remainingLength
    {
      this.command, this.remainingLength := command, remainingLength;
      remainingCount, packetLength, pos := 0, 0, 0;
      payload := new byte[0];
    }

    /** A packet read from the network. */
    constructor Received(command: byte, body: seq<byte>)
      ensures this.command == command && pos == 0 && remainingLength == |body| && payload[..] == body
    {
      this.command, remainingLength, pos := command, |body|, 0;
      remainingCount, packetLength := 0, 0;
      payload := new byte[|body|](i requires 0 <= i < |body| => body[i]);
    }

    // ---------- writing ----------

    /** There is room for n more bytes: what the assertions of the writers demand. */
    predicate Room(n: nat)
      reads this
    {
      pos + n <= packetLength == payload.Length
    }

    /** What has been written. */
    ghost function Written(): seq<byte>
      requires Room(0)
      reads this, payload
    {
      payload[..pos]
    }

    /** `packet__alloc`, with memory available: it succeeds exactly when the remaining length fits
      four bytes, and then the buffer starts with the fixed header. */
    method Alloc() returns (rc: Rc)
      requires remainingLength < UINT32_LIMIT
      modifies this
      ensures rc == (if remainingLength < VARINT_LIMIT then Success else PayloadSize)
      ensures command == old(command) && remainingLength == old(remainingLength)
      ensures rc == Success ==>
                && Room(remainingLength) && fresh(payload)
                && Written() == [command] + Encode(remainingLength)
                && pos + remainingLength == packetLength
    {
      var remainingBytes;
      remainingBytes, remainingCount := LengthBytes(remainingLength);
      EncodeLength(remainingLength);
      if remainingCount == 5 {
        return PayloadSize;
      }
      packetLength := remainingLength + 1 + remainingCount;
      payload := new byte[packetLength];
      payload[0] := command;
      forall i | 0 <= i < remainingCount {
        payload[i + 1] := remainingBytes[i];
      }
      pos := 1 + remainingCount;
      assert payload[..pos] == [command] + remainingBytes[..remainingCount];
      rc := Success;
    }

    /** The digits of a length, in an array of five. */
    static method LengthBytes(length: nat) returns (bytes: array<byte>, count: nat)
      requires length < UINT32_LIMIT
      ensures fresh(bytes) && bytes.Length == 5 && count <= 5 && bytes[..count] == Encode(length)
    {
      bytes := new byte[5];
      count := 0;
      EncodeLength(length);
      ghost var whole := Encode(length);
      var rest := length;
      var more := true;
      while more
        invariant count <= 5 && count <= |whole|
        invariant more ==> count < |whole| && Encode(rest) == whole[count..]
        invariant !more ==> count == |whole|
        invariant bytes[..count] == whole[..count]
        decreases more, 5 - count
      {
        EncodeStep(whole, count, rest);
        bytes[count] := if rest / 128 > 0 then rest % 128 + 128 else rest % 128;
        TakeNext(whole, count);
        assert bytes[..count + 1] == bytes[..count] + [whole[count]];
        rest := rest / 128;
        count := count + 1;
        more := rest > 0 && count < 5;
      }
    }

    method WriteByte(b: byte)
      requires Room(1)
      modifies this`pos, payload
      ensures Room(0) && Written() == old(Written()) + [b]
    {
      payload[pos] := b;
      pos := pos + 1;
    }

    method WriteBytes(bytes: seq<byte>)
      requires Room(|bytes|)
      modifies this`pos, payload
      ensures Room(0) && Written() == old(Written()) + bytes
    {
      forall i | 0 <= i < |bytes| {
        payload[pos + i] := bytes[i];
      }
      pos := pos + |bytes|;
    }

    method WriteUint16(w: nat)
      requires w < 0x1_0000 && Room(2)
      modifies this`pos, payload
      ensures Room(0) && Written() == old(Written()) + Uint16(w)
    {
      WriteByte(w / 256);
      WriteByte(w % 256);
    }

    method WriteUint32(w: nat)
      requires w < UINT32_LIMIT && Room(4)
      modifies this`pos, payload
      ensures Room(0) && Written() == old(Written()) + Uint32(w)
    {
      WriteByte(w / 0x100_0000);
      WriteByte(w / 0x1_0000 % 256);
      WriteByte(w / 256 % 256);
      WriteByte(w % 256);
    }

    /** `packet__write_string` with the length its caller passes, a 16-bit number. */
    method WriteString(s: seq<byte>, length: nat)
      requires length <= |s| && length < 0x1_0000 && Room(2 + length)
      modifies this`pos, payload
      ensures Room(0) && Written() == old(Written()) + Text(s[..length])
    {
      WriteUint16(length);
      WriteBytes(s[..length]);
    }

    /** `packet__write_varint`. */
    method WriteVarint(word: nat) returns (rc: Rc)
      requires word < UINT32_LIMIT && Room(VarintBytes(word))
      modifies this`pos, payload
      ensures Room(0) && Written() == old(Written()) + Encode(word)
      ensures rc == if word < VARINT_LIMIT then Success else Malformed
    {
      EncodeLength(word);
      ghost var start, whole := Written(), Encode(word);
      var rest, count := word, 0;
      var more := true;
      while more
        invariant 0 <= count <= 5 && count <= |whole|
        invariant Room(|whole| - count)
        invariant more ==> count < |whole| && Encode(rest) == whole[count..]
        invariant !more ==> count == |whole|
        invariant Written() == start + whole[..count]
        decreases more, 5 - count
      {
        EncodeStep(whole, count, rest);
        WriteByte(if rest / 128 > 0 then rest % 128 + 128 else rest % 128);
        NextOf(start, whole, count);
        rest := rest / 128;
        count := count + 1;
        more := rest > 0 && count < 5;
      }
      rc := if count == 5 then Malformed else Success;
    }

    // ---------- reading ----------

    predicate Readable()
      reads this
    {
      pos <= remainingLength == payload.Length
    }

    /** What is left to read. */
    ghost function Unread(): seq<byte>
      requires Readable()
      reads this, payload
    {
      payload[pos..]
    }

    method ReadByte() returns (rc: Rc, b: byte)
      requires Readable()
      modifies this`pos
      ensures Readable()
      ensures rc == Success ==> old(Unread()) == [b] + Unread()
      ensures rc != Success ==> rc == Malformed && old(Unread()) == [] && pos == old(pos)
    {
      b := 0;
      if pos + 1 > remainingLength {
        return Malformed, b;
      }
      b := payload[pos];
      pos := pos + 1;
      rc := Success;
    }

    method ReadBytes(count: nat) returns (rc: Rc, bytes: seq<byte>)
      requires Readable()
      modifies this`pos
      ensures Readable()
      ensures rc == Success ==> |bytes| == count && old(Unread()) == bytes + Unread()
      ensures rc != Success ==> rc == Malformed && |old(Unread())| < count && pos == old(pos)
    {
      bytes := [];
      if pos + count > remainingLength {
        return Malformed, bytes;
      }
      bytes := payload[pos..pos + count];
      pos := pos + count;
      rc := Success;
    }

    method ReadUint16() returns (rc: Rc, w: nat)
      requires Readable()
      modifies this`pos
      ensures Readable()
      ensures rc == Success ==> w < 0x1_0000 && old(Unread()) == Uint16(w) + Unread()
      ensures rc != Success ==> rc == Malformed && |old(Unread())| < 2 && pos == old(pos)
    {
      w := 0;
      if pos + 2 > remainingLength {
        return Malformed, w;
      }
      var msb := payload[pos];
      pos := pos + 1;
      var lsb := payload[pos];
      pos := pos + 1;
      w := (msb as int) * 256 + lsb;
      rc := Success;
    }

    method ReadUint32() returns (rc: Rc, w: nat)
      requires Readable()
      modifies this`pos
      ensures Readable()
      ensures rc == Success ==> w < UINT32_LIMIT && old(Unread()) == Uint32(w) + Unread()
      ensures rc != Success ==> rc == Malformed && |old(Unread())| < 4 && pos == old(pos)
    {
      w := 0;
      if pos + 4 > remainingLength {
        return Malformed, w;
      }
      var i := 0;
      ghost var s, u := payload[pos..pos + 4], Unread();
      while i < 4
        invariant 0 <= i <= 4 && pos == old(pos) + i && Readable() && old(pos) + 4 <= remainingLength
        invariant i == 0 ==> w == 0
        invariant i == 1 ==> w == s[0]
        invariant i == 2 ==> w == (s[0] as int) * 256 + s[1]
        invariant i == 3 ==> w == ((s[0] as int) * 256 + s[1]) * 256 + s[2]
        invariant i == 4 ==> w == (((s[0] as int) * 256 + s[1]) * 256 + s[2]) * 256 + s[3]
      {
        w := w * 256 + payload[pos];
        pos := pos + 1;
        i := i + 1;
      }
      Uint32OfBytes(s, w);
      assert s == u[..4] && Unread() == u[4..];
      rc := Success;
    }

    /** `packet__read_binary`: on a body that ends too early the length has been consumed. */
    method ReadBinary() returns (rc: Rc, data: seq<byte>)
      requires Readable()
      modifies this`pos
      ensures Readable()
      ensures rc == Success ==> |data| < 0x1_0000 && old(Unread()) == Text(data) + Unread()
      ensures rc != Success ==> rc == Malformed && forall s: seq<byte> :: |s| < 0x1_0000 ==> !(Text(s) <= old(Unread()))
    {
      data := [];
      ghost var u := Unread();
      var length;
      rc, length := ReadUint16();
      if rc != Success {
        return;
      }
      if length > 0 {
        rc, data := ReadBytes(length);
        forall s: seq<byte> | rc != Success && |s| < 0x1_0000 && Text(s) <= u
          ensures false
        {
          TextLength(s, length, u);
        }
      }
    }

    /** The next byte, after those done. */
    method TakeByte(ghost u: seq<byte>, ghost done: seq<byte>) returns (b: byte)
      requires Readable() && pos < remainingLength && u == done + Unread()
      modifies this`pos
      ensures Readable() && u == done + [b] + Unread()
    {
      b := payload[pos];
      ghost var rest := Unread();
      pos := pos + 1;
      assert rest == [b] + Unread();
      assert done + ([b] + Unread()) == done + [b] + Unread();
    }

    /** `packet__read_varint` accepts exactly the encodings that `packet__write_varint` produces
      for values below 2^28, and inverts them. */
    method ReadVarint() returns (rc: Rc, word: nat, bytes: nat)
      requires Readable()
      modifies this`pos
      ensures Readable()
      ensures rc == Success ==>
                word < VARINT_LIMIT && bytes == |Encode(word)| && old(Unread()) == Encode(word) + Unread()
      ensures rc != Success ==> rc == Malformed && NoEncoding(old(Unread()))
    {
      ghost var u := Unread();
      ghost var done: seq<byte> := [];
      word, bytes := 0, 0;
      var mult: nat := 1;
      var i := 0;
      while i < 4
        invariant 0 <= i <= 4 && i == bytes == |done| && Readable()
        invariant u == done + Unread()
        invariant forall k :: 0 <= k < |done| ==> done[k] >= 128
        invariant word == Digits(done) && mult == Pow128(i)
      {
        if pos < remainingLength {
          bytes := bytes + 1;
          var b := TakeByte(u, done);
          DigitsSnoc(done, b);
          word := word + (b as int) % 128 * mult;
          mult := mult * 128;
          done := done + [b];
          if b < 128 {
            if bytes > 1 && b == 0 {
              OverlongNotEncoding(u, done);
              return Malformed, word, bytes;
            }
            AcceptedIsEncoding(done);
            return Success, word, bytes;
          }
        } else {
          ContinuedNotEncoding(u, done);
          return Malformed, word, bytes;
        }
        i := i + 1;
      }
      ContinuedNotEncoding(u, done);
      rc := Malformed;
    }
  }

  lemma AcceptedIsEncoding(done: seq<byte>)
    requires Terminated(done) && |done| <= 4 && (|done| > 1 ==> done[|done| - 1] != 0)
    ensures Encode(Digits(done)) == done && Digits(done) < VARINT_LIMIT
  {
    TerminatedIsEncode(done);
    DigitsBound(done);
    Pow128Values();
  }

  lemma Pow128Values()
    ensures Pow128(1) == 128 && Pow128(2) == 16384 && Pow128(3) == 2097152 && Pow128(4) == VARINT_LIMIT
  {
    assert Pow128(1) == 128 * Pow128(0);
    assert Pow128(2) == 128 * Pow128(1);
    assert Pow128(3) == 128 * Pow128(2);
    assert Pow128(4) == 128 * Pow128(3);
  }

  lemma Uint32OfBytes(s: seq<byte>, w: nat)
    requires |s| == 4 && w == (((s[0] as int) * 256 + s[1]) * 256 + s[2]) * 256 + s[3]
    ensures w < UINT32_LIMIT && Uint32(w) == s
  {
    var a: int := (s[0] as int) * 256 + s[1];
    var b: int := a * 256 + s[2];
    assert w / 256 == b && w % 256 == s[3];
    assert b / 256 == a && b % 256 == s[2];
    assert a / 256 == s[0] && a % 256 == s[1];
    assert w / 0x1_0000 == a && w / 0x100_0000 == s[0];
  }

  lemma TextLength(s: seq<byte>, length: nat, u: seq<byte>)
    requires |s| < 0x1_0000 && length < 0x1_0000
    requires Text(s) <= u && Uint16(length) <= u
    ensures |s| == length && |u| >= 2 + length
  {
    assert Text(s)[0] == u[0] == Uint16(length)[0];
    assert Text(s)[1] == u[1] == Uint16(length)[1];
  }

  lemma OverlongNotEncoding(u: seq<byte>, done: seq<byte>)
    requires done <= u && Terminated(done) && |done| > 1 && done[|done| - 1] == 0
    ensures NoEncoding(u)
  {
    forall w: nat | w < VARINT_LIMIT
      ensures !(Encode(w) <= u)
    {
      EncodeTerminated(w);
      if Encode(w) <= u {
        PrefixTerminatedUnique(u, Encode(w), done);
      }
    }
  }

  lemma ContinuedNotEncoding(u: seq<byte>, done: seq<byte>)
    requires done <= u && (|done| == 4 || done == u)
    requires forall k :: 0 <= k < |done| ==> done[k] >= 128
    ensures NoEncoding(u)
  {
    forall w: nat | w < VARINT_LIMIT
      ensures !(Encode(w) <= u)
    {
      var e := Encode(w);
      var k := |e| - 1;
      EncodeTerminated(w);
      EncodeLength(w);
      if k < |done| {
        assert u[k] == done[k] != e[k];
      }
    }
  }

  lemma TakeNext(s: seq<byte>, n: nat)
    requires n < |s|
    ensures s[..n] + [s[n]] == s[..n + 1]
    ensures n + 1 == |s| ==> s[..n + 1] == s
  {
  }

  lemma NextOf(start: seq<byte>, whole: seq<byte>, count: nat)
    requires count < |whole|
    ensures start + whole[..count] + [whole[count]] == start + whole[..count + 1]
    ensures count + 1 == |whole| ==> whole[..count + 1] == whole
  {
  }

  lemma EncodeStep(whole: seq<byte>, count: nat, rest: nat)
    requires count < |whole| && Encode(rest) == whole[count..]
    ensures whole[count] == if rest / 128 > 0 then rest % 128 + 128 else rest % 128
    ensures rest / 128 > 0 ==> count + 1 < |whole| && Encode(rest / 128) == whole[count + 1..]
    ensures rest / 128 == 0 ==> count + 1 == |whole|
  {
    assert whole[count] == whole[count..][0];
    assert whole[count..][1..] == whole[count + 1..];
    if rest >= 128 {
      assert Encode(rest)[1..] == Encode(rest / 128);
    }
  }
}
