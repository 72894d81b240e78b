/** The stream read backwards: every tag is followed by its size (Adobe Flash Video File Format 10.1,
    Annex E.3), which leads a reader from the end of a stream to the start of each tag. */
module FlvTrailers {
  import opened Sequences
  import opened Bytes
  import opened FlvStream

  const HEADER_SIZE: nat := 13
  const SIZE_LENGTH: nat := 4

  /** Where the tag in front of a place starts, as the size at its end tells. */
  function Prev(bs: seq<Byte>): nat -> int {
    end => if SIZE_LENGTH <= end <= |bs| then end - SIZE_LENGTH - FromU32(bs[end - SIZE_LENGTH..end]) else 0
  }

  /** The starts of the tags in front of `end`, the first one first. */
  function Back(prev: nat -> int, end: nat): seq<nat> {
    var start := prev(end);
    if HEADER_SIZE <= start < end then Back(prev, start) + [start] else []
  }

  /** Where the tags of messages stand behind the header. */
  function Starts(ms: seq<Message>): seq<nat> {
    if ms == [] then [] else Starts(ms[..|ms| - 1]) + [HEADER_SIZE + |Tags(ms[..|ms| - 1])|]
  }

  lemma {:induction false} TagsPush(ms: seq<Message>, m: Message)
    ensures Tags(ms + [m]) == Tags(ms) + Tag(m)
  {
    if ms == [] {
      assert [m][1..] == [] && Tag(m) + [] == Tag(m) == [] + Tag(m);
      assert ms + [m] == [m];
    } else {
      assert (ms + [m])[1..] == ms[1..] + [m];
      TagsPush(ms[1..], m);
      Assoc(Tag(ms[0]), Tags(ms[1..]), Tag(m));
    }
  }

  lemma SliceSplit(bs: seq<Byte>, from: nat, to: nat, head: seq<Byte>, tail: seq<Byte>)
    requires from <= to <= |bs| && bs[from..to] == head + tail
    ensures to == from + |head| + |tail| && bs[from..from + |head|] == head && bs[from + |head|..to] == tail
  {
    assert |bs[from..to]| == to - from;
    assert bs[from..from + |head|] == bs[from..to][..|head|];
    assert bs[from + |head|..to] == bs[from..to][|head|..];
  }

  lemma TagParts(m: Message, size: nat) returns (head: seq<Byte>, trailer: seq<Byte>)
    requires size == |m.payload| + TAG_HEADER < 0x1_0000_0000
    ensures Tag(m) == head + trailer && |head| == size && |trailer| == SIZE_LENGTH && FromU32(trailer) == size
  {
    U32Inverse(size);
    head, trailer := TagHeader(m.kind, |m.payload|, m.timestamp) + m.payload, U32(size);
    WholeSize(m, size, head, trailer);
  }

  lemma WholeSize(m: Message, size: nat, head: seq<Byte>, trailer: seq<Byte>)
    requires size == |m.payload| + TAG_HEADER < 0x1_0000_0000
    requires head == TagHeader(m.kind, |m.payload|, m.timestamp) + m.payload && trailer == U32(size)
    ensures Tag(m) == head + trailer
  {
    assert (|m.payload| + TAG_HEADER) % 0x1_0000_0000 == size;
  }

  /** The size behind a tag leads back to the tag's start. */
  lemma SizeBehind(bs: seq<Byte>, start: nat, end: nat, m: Message)
    requires |m.payload| + TAG_HEADER < 0x1_0000_0000
    requires start <= end <= |bs| && bs[start..end] == Tag(m)
    ensures start < end && Prev(bs)(end) == start
  {
    var head, trailer := TagParts(m, |m.payload| + TAG_HEADER);
    SliceSplit(bs, start, end, head, trailer);
  }

  lemma LastTag(bs: seq<Byte>, end: nat, ms: seq<Message>, front: seq<Message>, m: Message) returns (start: nat)
    requires ms != [] && front == ms[..|ms| - 1] && m == ms[|ms| - 1]
    requires end == HEADER_SIZE + |Tags(ms)| <= |bs| && bs[HEADER_SIZE..end] == Tags(ms)
    ensures start == HEADER_SIZE + |Tags(front)| <= end
    ensures bs[HEADER_SIZE..start] == Tags(front) && bs[start..end] == Tag(m)
  {
    start := HEADER_SIZE + |Tags(front)|;
    assert ms == front + [m];
    TagsPush(front, m);
    SliceSplit(bs, HEADER_SIZE, end, Tags(front), Tag(m));
  }

  lemma NoTag(bs: seq<Byte>, end: nat)
    requires end <= HEADER_SIZE
    ensures Back(Prev(bs), end) == []
  {
  }

  /** From the end of a stream the sizes lead back over all tags to the header. */
  lemma {:induction false} BackFindsAll(bs: seq<Byte>, prev: nat -> int, end: nat, ms: seq<Message>)
    requires prev == Prev(bs)
    requires forall m <- ms :: |m.payload| + TAG_HEADER < 0x1_0000_0000
    requires end == HEADER_SIZE + |Tags(ms)| <= |bs| && bs[HEADER_SIZE..end] == Tags(ms)
    ensures Back(prev, end) == Starts(ms)
    decreases |ms|
  {
    if ms == [] {
      NoTag(bs, end);
    } else {
      var front, m := ms[..|ms| - 1], ms[|ms| - 1];
      var start := LastTag(bs, end, ms, front, m);
      SizeBehind(bs, start, end, m);
      BackFindsAll(bs, prev, start, front);
    }
  }

  /** The stream as it is sent, from its end. */
  lemma StreamReadsBack(audio: bool, video: bool, ms: seq<Message>)
    requires forall m <- ms :: |m.payload| + TAG_HEADER < 0x1_0000_0000
    ensures var bs := FlvHeader(audio, video) + Tags(ms); Back(Prev(bs), |bs|) == Starts(ms)
  {
    var bs := FlvHeader(audio, video) + Tags(ms);
    assert bs[HEADER_SIZE..|bs|] == Tags(ms);
    BackFindsAll(bs, Prev(bs), |bs|, ms);
  }

  lemma LengthField()
    ensures U32(9) == [0, 0, 0, 9] && U32(0) == [0, 0, 0, 0]
    ensures FromU32([0, 0, 0, 9]) == 9 && FromU32([0, 0, 0, 0]) == 0
  {
    U32Inverse(9);
    U32Inverse(0);
  }

  /** The header (Annex E.2): signature, version, what is in the stream, its own length, and no tag before the
      first. */
  lemma HeaderSays(h: seq<Byte>, audio: bool, video: bool)
    requires h == FlvHeader(audio, video)
    ensures h[..4] == ['F' as Byte, 'L' as Byte, 'V' as Byte, 1]
    ensures (h[4] / 4 % 2 == 1 <==> audio) && (h[4] % 2 == 1 <==> video) && h[4] / 8 == 0 && h[4] / 2 % 2 == 0
    ensures FromU32(h[5..9]) == HEADER_SIZE - SIZE_LENGTH && FromU32(h[9..]) == 0
  {
    assert h[5..9] == [0, 0, 0, 9] && h[9..] == [0, 0, 0, 0];
    LengthField();
  }

  /** The stream id of a tag is zero. */
  lemma StreamIdIsZero(m: Message)
    ensures Tag(m)[8..11] == [0, 0, 0]
  {
  }
}
