/** `httpd_resp_send_json_escaped_string_chunk`: a string escaped for JSON and sent in chunks
  through a 96-byte buffer. */
module JsonEscape {
  import opened Common

  const BACKSLASH: byte := 92
  const QUOTE: byte := 34
  const CHUNK_SIZE := 96

  predicate Special(b: byte) {
    b == BACKSLASH || b == QUOTE
  }

  function Escape(s: seq<byte>): (e: seq<byte>)
    ensures |s| <= |e|
  {
    if s == [] then []
    else (if Special(s[0]) then [BACKSLASH, s[0]] else [s[0]]) + Escape(s[1..])
  }

  /** What a JSON reader makes of the text between two quotes: nothing if an escape is cut off or
    a quote stands bare. */
  function Unescape(e: seq<byte>): Option<seq<byte>> {
    if e == [] then Some([])
    else if e[0] == 92 then
      if |e| == 1 then None
      else
        var rest := Unescape(e[2..]);
        if rest.None? then None else Some([e[1]] + rest.value)
    else if e[0] == 34 then None
    else
      var rest := Unescape(e[1..]);
      if rest.None? then None else Some([e[0]] + rest.value)
  }

  lemma {:induction false} UnescapeEscape(s: seq<byte>)
    ensures Unescape(Escape(s)) == Some(s)
    decreases |s|
  {
    if s != [] {
      UnescapeEscape(s[1..]);
      assert s == [s[0]] + s[1..];
      if Special(s[0]) {
        assert Escape(s)[2..] == Escape(s[1..]);
      } else {
        assert Escape(s)[1..] == Escape(s[1..]);
      }
    }
  }

  lemma {:induction false} EscapeConcat(s: seq<byte>, t: seq<byte>)
    ensures Escape(s + t) == Escape(s) + Escape(t)
    decreases |s|
  {
    if s == [] {
      assert s + t == t;
    } else {
      assert (s + t)[1..] == s[1..] + t;
      EscapeConcat(s[1..], t);
    }
  }

  /** The bytes that are sent at all: control characters are dropped. */
  function Printable(s: seq<byte>): seq<byte> {
    if s == [] then []
    else (if s[0] < 0x20 then [] else [s[0]]) + Printable(s[1..])
  }

  /** No room for b after what is pending. */
  predicate Full(pending: nat, b: byte) {
    (Special(b) && pending + 2 >= CHUNK_SIZE) || pending + 1 >= CHUNK_SIZE
  }

  /** The pieces of the string that go out one by one, cur being the one in the buffer. */
  function Pieces(cur: seq<byte>, s: seq<byte>): seq<seq<byte>>
    decreases |s|
  {
    if s == [] then if cur == [] then [] else [cur]
    else if s[0] < 0x20 then Pieces(cur, s[1..])
    else if Full(|Escape(cur)|, s[0]) then [cur] + Pieces([s[0]], s[1..])
    else Pieces(cur + [s[0]], s[1..])
  }

  function EscapeEach(pieces: seq<seq<byte>>): (chunks: seq<seq<byte>>)
    ensures |chunks| == |pieces|
    ensures forall i :: 0 <= i < |pieces| ==> chunks[i] == Escape(pieces[i])
  {
    if pieces == [] then [] else [Escape(pieces[0])] + EscapeEach(pieces[1..])
  }

  /** The chunks a string is sent in. */
  function Chunks(s: seq<byte>): seq<seq<byte>> {
    EscapeEach(Pieces([], s))
  }

  function Concat(chunks: seq<seq<byte>>): seq<byte> {
    if chunks == [] then [] else chunks[0] + Concat(chunks[1..])
  }

  lemma {:induction false} PiecesConcat(cur: seq<byte>, s: seq<byte>)
    ensures Concat(Pieces(cur, s)) == cur + Printable(s)
    decreases |s|
  {
    if s == [] {
      assert Concat([cur]) == cur + Concat([]);
    } else if s[0] < 0x20 {
      PiecesConcat(cur, s[1..]);
      assert [] + Printable(s[1..]) == Printable(s[1..]);
    } else if Full(|Escape(cur)|, s[0]) {
      PiecesConcat([s[0]], s[1..]);
      assert ([cur] + Pieces([s[0]], s[1..]))[1..] == Pieces([s[0]], s[1..]);
    } else {
      PiecesConcat(cur + [s[0]], s[1..]);
      assert cur + [s[0]] + Printable(s[1..]) == cur + ([s[0]] + Printable(s[1..]));
    }
  }

  lemma {:induction false} ConcatEscaped(pieces: seq<seq<byte>>)
    ensures Concat(EscapeEach(pieces)) == Escape(Concat(pieces))
    decreases |pieces|
  {
    if pieces != [] {
      ConcatEscaped(pieces[1..]);
      EscapeConcat(pieces[0], Concat(pieces[1..]));
    }
  }

  lemma EscapeOne(cur: seq<byte>, b: byte)
    ensures Escape(cur + [b]) == Escape(cur) + (if Special(b) then [BACKSLASH, b] else [b])
  {
    EscapeConcat(cur, [b]);
    assert Escape([b]) == if Special(b) then [BACKSLASH, b] else [b];
  }

  lemma {:induction false} PieceSizes(cur: seq<byte>, s: seq<byte>)
    requires |Escape(cur)| < CHUNK_SIZE
    ensures forall i :: 0 <= i < |Pieces(cur, s)| ==> 1 <= |Escape(Pieces(cur, s)[i])| < CHUNK_SIZE
    decreases |s|
  {
    if s != [] {
      if s[0] < 0x20 {
        PieceSizes(cur, s[1..]);
      } else if Full(|Escape(cur)|, s[0]) {
        EscapeOne([], s[0]);
        assert [] + [s[0]] == [s[0]];
        PieceSizes([s[0]], s[1..]);
      } else {
        EscapeOne(cur, s[0]);
        PieceSizes(cur + [s[0]], s[1..]);
      }
    }
  }

  /** Together the chunks are the escaped string without its control characters, and a reader of
    the whole gets that string back. */
  lemma ChunksRoundTrip(s: seq<byte>)
    ensures Concat(Chunks(s)) == Escape(Printable(s))
    ensures Unescape(Concat(Chunks(s))) == Some(Printable(s))
  {
    PiecesConcat([], s);
    ConcatEscaped(Pieces([], s));
    UnescapeEscape(Printable(s));
    assert [] + Printable(s) == Printable(s);
  }

  /** No chunk is empty, none is longer than 95 bytes, and each can be read by itself: no escape is
    split between two. */
  lemma ChunksWellFormed(s: seq<byte>, i: nat)
    requires i < |Chunks(s)|
    ensures 1 <= |Chunks(s)[i]| <= 95
    ensures Unescape(Chunks(s)[i]).Some?
  {
    PieceSizes([], s);
    UnescapeEscape(Pieces([], s)[i]);
  }

  lemma {:induction false} PiecesFull(cur: seq<byte>, s: seq<byte>, i: nat)
    requires i < |Pieces(cur, s)| - 1
    ensures |Escape(Pieces(cur, s)[i])| >= 94
    decreases |s|
  {
    if s[0] < 0x20 {
      PiecesFull(cur, s[1..], i);
    } else if Full(|Escape(cur)|, s[0]) {
      if i > 0 {
        PiecesFull([s[0]], s[1..], i - 1);
      }
    } else {
      PiecesFull(cur + [s[0]], s[1..], i);
    }
  }

  /** A chunk is sent only when the next byte may not fit: every chunk but the last is full but for
    one byte at most. */
  lemma ChunksFull(s: seq<byte>, i: nat)
    requires i < |Chunks(s)| - 1
    ensures |Chunks(s)[i]| >= 94
  {
    PiecesFull([], s, i);
  }

  /** A response under way: the chunks sent, and how many more the connection will take. */
  class Response {
    var chunks: seq<seq<byte>>
    var room: nat

    constructor (room: nat)
      ensures chunks == [] && this.room == room
    {
      this.room, chunks := room, [];
    }

    method SendChunk(chunk: array<byte>, j: nat) returns (ok: bool)
      requires j <= chunk.Length
      modifies this
      ensures ok == (old(room) > 0)
      ensures chunks == if ok then old(chunks) + [chunk[..j]] else old(chunks)
      ensures room == if ok then old(room) - 1 else 0
    {
      if room == 0 {
        return false;
      }
      chunks := chunks + [chunk[..j]];
      room := room - 1;
      ok := true;
    }

    /** Sends what the buffer holds: the piece cur, after the pieces done. */
    method Flush(chunk: array<byte>, j: nat, ghost cur: seq<byte>, ghost done: seq<seq<byte>>,
                 ghost rest: seq<seq<byte>>, ghost start: seq<seq<byte>>, ghost total: nat)
      returns (ok: bool)
      requires j <= chunk.Length && chunk[..j] == Escape(cur)
      requires chunks == start + EscapeEach(done) && room + |done| == total
      modifies this
      ensures ok ==> chunks == start + EscapeEach(done + [cur]) && room + |done| + 1 == total
      ensures !ok ==> total == |done| && chunks == start + EscapeEach(done + [cur] + rest)[..total]
    {
      EscapeEachConcat(done, [cur]);
      EscapeEachConcat(done + [cur], rest);
      ok := SendChunk(chunk, j);
    }

    /** One byte of the string goes into the buffer, with a backslash before it if it needs one. */
    method PutByte(chunk: array<byte>, j: nat, b: byte, ghost cur: seq<byte>) returns (j': nat)
      requires chunk.Length == CHUNK_SIZE && j < CHUNK_SIZE && chunk[..j] == Escape(cur)
      requires !Full(j, b)
      modifies chunk
      ensures j' < CHUNK_SIZE && chunk[..j'] == Escape(cur + [b])
    {
      EscapeOne(cur, b);
      j' := j;
      if Special(b) {
        chunk[j'] := BACKSLASH;
        j' := j' + 1;
      }
      chunk[j'] := b;
      j' := j' + 1;
    }

    /** The loop over the string; a failed send ends it with an error. */
    method SendEscaped(src: seq<byte>) returns (ok: bool)
      modifies this
      ensures ok <==> old(room) >= |Chunks(src)|
      ensures chunks == old(chunks) + if ok then Chunks(src) else Chunks(src)[..old(room)]
    {
      var chunk := new byte[CHUNK_SIZE](_ => 0);
      var j: nat := 0;
      var i := 0;
      ghost var cur: seq<byte>, done: seq<seq<byte>> := [], [];
      ghost var start, total := chunks, room;
      while i < |src|
        invariant i <= |src| && j < CHUNK_SIZE && chunk[..j] == Escape(cur)
        invariant done + Pieces(cur, src[i..]) == Pieces([], src)
        invariant chunks == start + EscapeEach(done) && room + |done| == total
      {
        var b := src[i];
        PiecesStep(cur, src, i, done);
        if b >= 0x20 {
          ghost var rest := Pieces([b], src[i + 1..]);
          var full := false;
          if Special(b) && j + 2 >= CHUNK_SIZE {
            full := true;
          } else if j + 1 >= CHUNK_SIZE {
            full := true;
          }
          if full {
            ok := Flush(chunk, j, cur, done, rest, start, total);
            if !ok {
              return;
            }
            j, done, cur := 0, done + [cur], [];
          }
          assert [] + [b] == [b];
          j := PutByte(chunk, j, b, cur);
          cur := cur + [b];
        }
        i := i + 1;
      }
      assert src[i..] == [] && done + [] == done && done + [cur] + [] == done + [cur];
      ok := true;
      if j > 0 {
        ok := Flush(chunk, j, cur, done, [], start, total);
      }
    }
  }

  lemma {:induction false} EscapeEachConcat(a: seq<seq<byte>>, b: seq<seq<byte>>)
    ensures EscapeEach(a + b) == EscapeEach(a) + EscapeEach(b)
    decreases |a|
  {
    if a == [] {
      assert a + b == b;
    } else {
      assert (a + b)[1..] == a[1..] + b;
      EscapeEachConcat(a[1..], b);
    }
  }

  lemma PiecesStep(cur: seq<byte>, s: seq<byte>, i: nat, done: seq<seq<byte>>)
    requires i < |s|
    ensures done + Pieces(cur, s[i..]) ==
            if s[i] < 0x20 then done + Pieces(cur, s[i + 1..])
            else if Full(|Escape(cur)|, s[i]) then (done + [cur]) + Pieces([s[i]], s[i + 1..])
            else done + Pieces(cur + [s[i]], s[i + 1..])
  {
    assert s[i..][0] == s[i] && s[i..][1..] == s[i + 1..];
  }
}
