/** An HTTP client's view of the stream: a decoder of the chunked transfer coding, written from
    section 4.1 of RFC 7230 alone (no extensions, no trailer fields), and what it makes of the chunks
    the server writes. */
module ChunkClient {
  import opened Sequences
  import opened Bytes
  import opened FlvStream
  import opened OutQueue

  datatype Status = More | Done | Bad

  datatype Decoded = Decoded(body: seq<Byte>, status: Status)

  /** A chunk-size line: its number and what follows it, or not yet known, or wrong. */
  datatype SizeLine = Size(n: nat, rest: seq<Byte>) | Cut | Wrong

  predicate IsHex(b: Byte) {
    48 <= b <= 57 || 65 <= b <= 70 || 97 <= b <= 102
  }

  function HexValue(b: Byte): (v: nat)
    requires IsHex(b)
    ensures v < 16
  {
    if b <= 57 then b - 48 else if b <= 70 then b - 55 else b - 87
  }

  /** `n` is the value of the digits so far; `any` tells that there was one. */
  function ReadSize(s: seq<Byte>, n: nat, any: bool): (r: SizeLine)
    ensures r.Size? ==> |r.rest| < |s|
  {
    if s == [] then Cut
    else if IsHex(s[0]) then ReadSize(s[1..], n * 16 + HexValue(s[0]), true)
    else if !any || s[0] != CR then Wrong
    else if |s| == 1 then Cut
    else if s[1] != LF then Wrong
    else Size(n, s[2..])
  }

  /** The body bytes known from `s`, and whether the body is complete, to be continued or malformed. */
  function Decode(s: seq<Byte>): Decoded
    decreases |s|
  {
    match ReadSize(s, 0, false)
    case Cut => Decoded([], More)
    case Wrong => Decoded([], Bad)
    case Size(n, rest) =>
      if |rest| < n then Decoded(rest, More)
      else if n == 0 then Decoded([], Ending(rest))
      else
        match Ending(rest[n..])
        case Done =>
          var d := Decode(rest[n + 2..]);
          Decoded(rest[..n] + d.body, d.status)
        case other => Decoded(rest[..n], other)
  }

  /** The line end that closes a chunk or the body; after the body nothing more is read. */
  function Ending(s: seq<Byte>): (e: Status)
    ensures e == Done <==> CRLF <= s
  {
    if s == [] || s == [CR] then More
    else if CRLF <= s then Done
    else Bad
  }

  // ------------------------------------------------------- reading on

  lemma {:induction false} ReadSizeMore(s: seq<Byte>, t: seq<Byte>, n: nat, any: bool)
    ensures var r, r1 := ReadSize(s, n, any), ReadSize(s + t, n, any);
            match r case Size(k, rest) => r1 == Size(k, rest + t) case Wrong => r1 == Wrong case Cut => true
  {
    if s != [] {
      assert (s + t)[1..] == s[1..] + t;
      if IsHex(s[0]) {
        ReadSizeMore(s[1..], t, n * 16 + HexValue(s[0]), true);
      } else if |s| > 1 {
        assert (s + t)[2..] == s[2..] + t;
      }
    }
  }

  lemma EndingMore(s: seq<Byte>, t: seq<Byte>)
    ensures Ending(s) != More ==> Ending(s + t) == Ending(s)
  {
    if |s| > 0 {
      assert (s + t)[0] == s[0];
    }
    if |s| > 1 {
      assert (s + t)[1] == s[1] && (s + t)[..2] == s[..2];
      assert s[..2] == [s[0], s[1]];
    }
  }

  /** A client that has more of the stream has at least as much of the body, and a verdict stays. */
  lemma {:induction false} DecodeMore(s: seq<Byte>, t: seq<Byte>)
    ensures Decode(s).body <= Decode(s + t).body
    ensures Decode(s).status != More ==> Decode(s + t) == Decode(s)
    decreases |s|
  {
    ReadSizeMore(s, t, 0, false);
    var r := ReadSize(s, 0, false);
    if r.Size? {
      var n, rest := r.n, r.rest;
      if |rest| >= n {
        assert (rest + t)[n..] == rest[n..] + t;
        assert (rest + t)[..n] == rest[..n];
        EndingMore(rest[n..], t);
        if Ending(rest[n..]) == Done && n > 0 {
          assert (rest + t)[n + 2..] == rest[n + 2..] + t;
          DecodeMore(rest[n + 2..], t);
        }
      } else {
        assert rest <= rest + t;
      }
    }
  }

  // ------------------------------------------------- the server's chunks

  lemma {:induction false} ReadHex(n: nat, t: seq<Byte>, any: bool)
    ensures ReadSize(Hex(n) + t, 0, any) == ReadSize(t, n, true)
    decreases n
  {
    var d := HexDigit(n % 16);
    if n >= 16 {
      assert Hex(n) + t == Hex(n / 16) + ([d] + t);
      ReadHex(n / 16, [d] + t, any);
      OneDigit(d, t, n / 16, true);
    } else {
      OneDigit(d, t, 0, any);
    }
  }

  lemma OneDigit(d: Byte, t: seq<Byte>, n: nat, any: bool)
    requires IsHex(d)
    ensures ReadSize([d] + t, n, any) == ReadSize(t, n * 16 + HexValue(d), true)
  {
    assert ([d] + t)[1..] == t;
  }

  lemma ReadLineEnd(t: seq<Byte>, n: nat)
    ensures ReadSize(CRLF + t, n, true) == Size(n, t)
  {
    assert (CRLF + t)[2..] == t;
  }

  /** A size line, the data, its line end. */
  lemma DecodeSized(s: seq<Byte>, data: seq<Byte>, t: seq<Byte>, rest: seq<Byte>)
    requires data != [] && rest == data + (CRLF + t) && ReadSize(s, 0, false) == Size(|data|, rest)
    ensures Decode(s) == Decoded(data + Decode(t).body, Decode(t).status)
  {
    var n := |data|;
    assert rest[..n] == data && rest[n..] == CRLF + t && rest[n + 2..] == t;
    assert CRLF <= rest[n..];
  }

  lemma DecodeChunk(data: seq<Byte>, t: seq<Byte>)
    requires data != []
    ensures Decode(Chunk(|data|, data) + t) == Decoded(data + Decode(t).body, Decode(t).status)
  {
    var n, s, rest := |data|, Chunk(|data|, data) + t, data + (CRLF + t);
    assert s == Hex(n) + (CRLF + rest);
    ReadHex(n, CRLF + rest, false);
    ReadLineEnd(rest, n);
    DecodeSized(s, data, t, rest);
  }

  lemma {:induction false} DecodeChunks(ms: seq<Message>, t: seq<Byte>)
    requires forall m <- ms :: |m.payload| + TAG_HEADER < 0x1_0000_0000
    ensures Decode(TagChunks(ms) + t) == Decoded(Tags(ms) + Decode(t).body, Decode(t).status)
  {
    if ms == [] {
      assert TagChunks(ms) + t == t;
      assert Tags(ms) + Decode(t).body == Decode(t).body;
    } else {
      var tag, chunk := FirstChunk(ms);
      DecodeChunks(ms[1..], t);
      DecodeFirst(tag, chunk, TagChunks(ms[1..]), Tags(ms[1..]), t);
    }
  }

  lemma FirstChunk(ms: seq<Message>) returns (tag: seq<Byte>, chunk: seq<Byte>)
    requires ms != [] && |ms[0].payload| + TAG_HEADER < 0x1_0000_0000
    ensures tag != [] && chunk == Chunk(|tag|, tag)
    ensures Tags(ms) == tag + Tags(ms[1..]) && TagChunks(ms) == chunk + TagChunks(ms[1..])
  {
    tag, chunk := Tag(ms[0]), TagChunk(ms[0]);
  }

  lemma {:induction false} DecodeFirst(tag: seq<Byte>, chunk: seq<Byte>, chunks: seq<Byte>, body: seq<Byte>,
                                       t: seq<Byte>)
    requires tag != [] && chunk == Chunk(|tag|, tag)
    requires Decode(chunks + t) == Decoded(body + Decode(t).body, Decode(t).status)
    ensures Decode(chunk + chunks + t) == Decoded(tag + body + Decode(t).body, Decode(t).status)
  {
    DecodeChunk(tag, chunks + t);
    Assoc(chunk, chunks, t);
    Assoc(tag, body, Decode(t).body);
  }

  /** The whole response body, with or without the closing chunk. */
  function Response(audio: bool, video: bool, ms: seq<Message>, closed: bool): seq<Byte> {
    HeaderChunk(audio, video) + TagChunks(ms) + if closed then LAST_CHUNK else []
  }

  lemma {:induction false} ClientGetsFlv(audio: bool, video: bool, ms: seq<Message>, closed: bool)
    requires forall m <- ms :: |m.payload| + TAG_HEADER < 0x1_0000_0000
    ensures Decode(Response(audio, video, ms, closed))
         == Decoded(FlvHeader(audio, video) + Tags(ms), if closed then Done else More)
  {
    var end: seq<Byte> := if closed then LAST_CHUNK else [];
    var flv := FlvHeader(audio, video);
    assert Hex(13) == [100];
    assert HeaderChunk(audio, video) == Chunk(13, flv);
    assert Response(audio, video, ms, closed) == Chunk(13, flv) + (TagChunks(ms) + end);
    DecodeChunk(flv, TagChunks(ms) + end);
    DecodeChunks(ms, end);
    DecodeEnd(closed);
    assert Tags(ms) + [] == Tags(ms);
  }

  lemma DecodeEnd(closed: bool)
    ensures Decode(if closed then LAST_CHUNK else []) == Decoded([], if closed then Done else More)
  {
    if closed {
      assert LAST_CHUNK[1..] == [CR, LF, CR, LF] && LAST_CHUNK[1..][2..] == CRLF;
      assert ReadSize(LAST_CHUNK[1..], 0, true) == Size(0, CRLF);
      assert ReadSize(LAST_CHUNK, 0, false) == Size(0, CRLF);
    }
  }

  /** At any moment: from a prefix of the response the client has a prefix of the FLV stream, finds
      nothing malformed, and sees the end only if there is one. */
  lemma ClientNeverMisled(wire: seq<Byte>, audio: bool, video: bool, ms: seq<Message>, closed: bool)
    requires forall m <- ms :: |m.payload| + TAG_HEADER < 0x1_0000_0000
    requires wire <= Response(audio, video, ms, closed)
    ensures Decode(wire).body <= FlvHeader(audio, video) + Tags(ms)
    ensures Decode(wire).status == More || (Decode(wire).status == Done && closed)
    ensures Decode(wire).status == Done ==> Decode(wire).body == FlvHeader(audio, video) + Tags(ms)
  {
    var all := Response(audio, video, ms, closed);
    assert all == wire + all[|wire|..];
    DecodeMore(wire, all[|wire|..]);
    ClientGetsFlv(audio, video, ms, closed);
  }

  /** The same for the peer of a session, behind the HTTP header: whatever part of the accepted messages
      its queue has sent, and however much of the response was accepted so far. */
  lemma PeerNeverMisled(bytes: Id -> Chain, q: Queue, refs: Refs, wire: seq<Byte>, accepted: seq<Id>,
                        head: seq<Byte>, audio: bool, video: bool, ms: seq<Message>, closed: bool)
    requires Sound(bytes, q, refs, wire, accepted) && |head| <= |wire|
    requires forall m <- ms :: |m.payload| + TAG_HEADER < 0x1_0000_0000
    requires AllBytes(bytes, accepted) <= head + Response(audio, video, ms, closed)
    ensures head <= wire
    ensures var d := Decode(wire[|head|..]);
            && d.body <= FlvHeader(audio, video) + Tags(ms)
            && d.status != Bad
            && (d.status == Done ==> closed && d.body == FlvHeader(audio, video) + Tags(ms))
  {
    var all, response := AllBytes(bytes, accepted), Response(audio, video, ms, closed);
    assert all == wire + Unsent(bytes, q);
    assert wire == (head + response)[..|wire|];
    assert wire[..|head|] == head;
    assert wire[|head|..] == response[..|wire| - |head|];
    ClientNeverMisled(wire[|head|..], audio, video, ms, closed);
  }
}
