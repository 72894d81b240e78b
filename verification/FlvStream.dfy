/** FLV tags (Adobe Flash Video File Format 10.1, Annex E.4.1) as HTTP chunks (section 4.1 of RFC 7230),
    and a client that takes them out of the chunks again. */
module FlvStream {
  import opened Bytes
  import opened SharedBufs

  /** A message with the header fields that reach a tag: an 8-bit type and a 32-bit timestamp. */
  datatype Message = Message(kind: Byte, timestamp: Time, payload: seq<Byte>)

  type Time = t: int | 0 <= t < 0x1_0000_0000

  const CR: Byte := 13
  const LF: Byte := 10
  const CRLF: seq<Byte> := [CR, LF]
  const TAG_HEADER: nat := 11

  function U24(n: int): (s: seq<Byte>)
    requires 0 <= n < 0x100_0000
    ensures |s| == 3
  {
    assert 0 <= n / 0x1_0000 < 0x100;
    [n / 0x1_0000] + U16(n % 0x1_0000)
  }

  function FromU24(s: seq<Byte>): (n: nat)
    requires |s| == 3
    ensures n < 0x100_0000
  {
    s[0] * 0x1_0000 + FromU16(s[1..])
  }

  lemma U24Inverse(n: int)
    requires 0 <= n < 0x100_0000
    ensures FromU24(U24(n)) == n
  {
    U16Inverse(n % 0x1_0000);
    assert U24(n)[1..] == U16(n % 0x1_0000);
  }

  /** The timestamp's high byte comes last. */
  function TagTime(t: Time): (s: seq<Byte>)
    ensures |s| == 4
  {
    U24(t % 0x100_0000) + [t / 0x100_0000]
  }

  /** Type, data size, timestamp and stream id; the C fields are 5 and 24 bits wide. */
  function TagHeader(kind: Byte, size: nat, timestamp: Time): (s: seq<Byte>)
    ensures |s| == TAG_HEADER
  {
    [kind % 0x20] + U24(size % 0x100_0000) + TagTime(timestamp) + [0, 0, 0]
  }

  function Tag(m: Message): seq<Byte> {
    TagHeader(m.kind, |m.payload|, m.timestamp) + m.payload + U32((|m.payload| + TAG_HEADER) % 0x1_0000_0000)
  }

  function Tags(ms: seq<Message>): seq<Byte> {
    if ms == [] then [] else Tag(ms[0]) + Tags(ms[1..])
  }

  function FlvHeader(audio: bool, video: bool): (s: seq<Byte>)
    ensures |s| == 13
  {
    [0x46, 0x4c, 0x56, 1, (if audio then 4 else 0) + (if video then 1 else 0), 0, 0, 0, 9, 0, 0, 0, 0]
  }

  // -------------------------------------------------------------- chunks

  function HexDigit(d: int): Byte
    requires 0 <= d < 16
  {
    if d < 10 then 48 + d else 87 + d
  }

  /** "%xO" */
  function Hex(n: nat): (s: seq<Byte>)
    ensures s != []
  {
    if n < 16 then [HexDigit(n)] else Hex(n / 16) + [HexDigit(n % 16)]
  }

  function Chunk(size: nat, data: seq<Byte>): seq<Byte> {
    Hex(size) + CRLF + data + CRLF
  }

  /** The chunk of a message: its size is counted in 32 bits, plus four. */
  function TagChunk(m: Message): seq<Byte> {
    Chunk((|m.payload| + TAG_HEADER) % 0x1_0000_0000 + 4, Tag(m))
  }

  function TagChunks(ms: seq<Message>): seq<Byte> {
    if ms == [] then [] else TagChunk(ms[0]) + TagChunks(ms[1..])
  }

  /** send_header's first chunk and send_tail's last one. */
  function HeaderChunk(audio: bool, video: bool): seq<Byte> {
    [100, CR, LF] + FlvHeader(audio, video) + CRLF
  }

  const LAST_CHUNK: seq<Byte> := [48, CR, LF, CR, LF]

  /** Chunks as section 4.1 of RFC 7230 has them, byte by byte. */
  lemma ChunkSpecimen(data: seq<Byte>)
    ensures Chunk(0x1f, data) == ['1' as Byte, 'f' as Byte, 13, 10] + data + [13, 10]
    ensures Chunk(9, data) == ['9' as Byte, 13, 10] + data + [13, 10]
    ensures LAST_CHUNK == ['0' as Byte, 13, 10, 13, 10] && HeaderChunk(true, true)[..3] == ['d' as Byte, 13, 10]
  {
    assert Hex(0x1f) == Hex(1) + [HexDigit(15)];
  }

  /** ngx_http_flv_live_append_shared_bufs: the tag is copied behind 18 spare bytes, where its header
      goes; with chunking a buffer goes before it, and the closing CRLF into the last buffer if there
      is room. */
  method AppendSharedTag(kind: Byte, timestamp: Time, input: seq<seq<Byte>>, size: nat, chunked: bool)
    returns (out: seq<Buf>)
    requires size > 0
    ensures var m := Message(kind, timestamp, Flat(input));
            Content(out) == if chunked then TagChunk(m) else Tag(m)
    ensures out != [] && NoneEmpty(out)
  {
    var dataSize := DataSize(input);
    ghost var m := Message(kind, timestamp, Flat(input));
    Truncated(|m.payload|);
    var tagSize := (dataSize + TAG_HEADER) % 0x1_0000_0000;
    var tag := CopyTag(TagHeader(kind, dataSize, timestamp), input, U32(tagSize), size);
    assert Content(tag) == Tag(m);
    out := tag;
    if chunked {
      out := AddChunk(tag, tagSize + 4, size);
    }
  }

  /** The size in the header and in the trailer may be computed from the truncated total. */
  lemma Truncated(n: nat)
    ensures (n % 0x1_0000_0000) % 0x100_0000 == n % 0x100_0000
    ensures (n % 0x1_0000_0000 + TAG_HEADER) % 0x1_0000_0000 == (n + TAG_HEADER) % 0x1_0000_0000
  {
    var q, r := n / 0x1_0000_0000, n % 0x1_0000_0000;
    Quotient(n, 0x100_0000, q * 0x100 + r / 0x100_0000, r % 0x100_0000);
    var k, t := (r + TAG_HEADER) / 0x1_0000_0000, (r + TAG_HEADER) % 0x1_0000_0000;
    Quotient(n + TAG_HEADER, 0x1_0000_0000, q + k, t);
  }

  /** The total of the buffer lengths in a uint32_t. */
  method DataSize(input: seq<seq<Byte>>) returns (dataSize: nat)
    ensures dataSize == |Flat(input)| % 0x1_0000_0000
  {
    dataSize := 0;
    var i := 0;
    assert input[0..] == input;
    while i < |input|
      invariant i <= |input| && dataSize < 0x1_0000_0000
      invariant (dataSize + |Flat(input[i..])|) % 0x1_0000_0000 == |Flat(input)| % 0x1_0000_0000
    {
      assert input[i..][0] == input[i] && input[i..][1..] == input[i + 1..];
      dataSize := (dataSize + |input[i]|) % 0x1_0000_0000;
      i := i + 1;
    }
    assert input[i..] == [];
  }

  method CopyTag(header: seq<Byte>, input: seq<seq<Byte>>, trailer: seq<Byte>, size: nat) returns (tag: seq<Buf>)
    requires size > 0 && header != [] && trailer != []
    ensures Content(tag) == header + Flat(input) + trailer
    ensures tag != [] && NoneEmpty(tag)
  {
    FlatPush(input, trailer);
    tag := AppendSharedBufs(input + [trailer], size);
    ContentFirst(tag);
    ghost var bytes := Content(tag);
    var first, rest := tag[0], tag[1..];
    tag := [first.(data := header + first.data)] + rest;
    ContentFirst(tag);
    assert tag[1..] == rest;
    assert Content(tag) == header + bytes;
  }

  method AddChunk(tag: seq<Buf>, length: nat, size: nat) returns (out: seq<Buf>)
    requires size > 0 && tag != [] && NoneEmpty(tag)
    ensures Content(out) == Chunk(length, Content(tag))
    ensures out != [] && NoneEmpty(out)
  {
    var item := Hex(length) + CRLF;
    var head := AppendSharedBufs([item], size);
    assert Flat([item]) == item + Flat([]) == item;
    var front, last := tag[..|tag| - 1], tag[|tag| - 1];
    assert tag == front + [last];
    var closed;
    if last.room >= 2 {
      closed := front + [Filled(last, CRLF)];
      Copied(front, last, CRLF);
    } else {
      var tail := AppendSharedBufs([CRLF], size);
      assert Flat([CRLF]) == CRLF + Flat([]) == CRLF;
      closed := tag + tail;
      ContentAppend(tag, tail);
    }
    out := head + closed;
    ContentAppend(head, closed);
    assert Content(out) == Hex(length) + CRLF + (Content(tag) + CRLF) == Chunk(length, Content(tag));
  }
}
