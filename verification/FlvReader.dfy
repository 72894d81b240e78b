/** ngx_rtmp_flv_send: one tag of a stored file per call, with a walk over the tags that trusts every
    size field. */
module FlvReader {
  import opened Bytes
  import opened FlvStream
  import opened Wrappers

  const AUDIO: Byte := 8
  const VIDEO: Byte := 9
  const DATA_OFFSET: nat := 13
  const BUFFER: nat := 0x10_0000

  /** What one call met: the end of the file, a tag cut short, a tag that carries no audio or video, one
      larger than the read buffer, or a message to send. */
  datatype Visit =
    | End
    | Torn
    | Other(kind: Byte, timestamp: Time, size: nat)
    | TooBig(kind: Byte, timestamp: Time, size: nat)
    | Play(message: Message)

  function TimeOf(s: seq<Byte>): (t: Time)
    requires |s| == 4
  {
    s[3] * 0x100_0000 + FromU24(s[..3])
  }

  /** The bytes of ngx_read_file, fewer than `n` at the end of the file. */
  function ReadAt(file: seq<Byte>, offset: nat, n: nat): seq<Byte> {
    if offset + n <= |file| then file[offset..offset + n]
    else if offset < |file| then file[offset..]
    else []
  }

  function TagSize(header: seq<Byte>): nat
    requires |header| == TAG_HEADER
  {
    FromU24(header[1..4])
  }

  function VisitTag(header: seq<Byte>, file: seq<Byte>, next: nat): (v: Visit)
    requires |header| == TAG_HEADER && next >= TagSize(header) + 4
    ensures v != End
  {
    var kind, size, timestamp := header[0], TagSize(header), TimeOf(header[4..8]);
    if kind != AUDIO && kind != VIDEO then Other(kind, timestamp, size)
    else if size > BUFFER then TooBig(kind, timestamp, size)
    else
      var body := ReadAt(file, next - size - 4, size);
      if |body| != size then Torn else Play(Message(kind, timestamp, body))
  }

  /** The visit at an offset and the offset after it. */
  function Visited(file: seq<Byte>, offset: nat): (r: (Visit, nat))
    ensures r.0 == End || r.1 > offset
  {
    var header := ReadAt(file, offset, TAG_HEADER);
    if |header| != TAG_HEADER then (End, offset)
    else
      var next := offset + TAG_HEADER + TagSize(header) + 4;
      (VisitTag(header, file, next), next)
  }

  /** All visits from an offset on, up to the end or the tag that is cut short. */
  function Walk(file: seq<Byte>, offset: nat): seq<Visit>
    decreases |file| - offset
  {
    var (v, next) := Visited(file, offset);
    if v == End || v == Torn then [v]
    else if next > |file| then [v, End]
    else [v] + Walk(file, next)
  }

  // --------------------------------------------------------- the reader

  /** last_audio or last_video, and the bit of msg_mask. */
  datatype Track = Track(last: Time, started: bool)

  /** NGX_OK, NGX_AGAIN and anything else from the send function. */
  datatype Outcome = Sent | Dropped | Failed

  function Advanced(t: Track, v: Visit, kind: Byte, outcome: Outcome): Track {
    match v
    case Play(m) => if m.kind == kind then Track(m.timestamp, t.started || outcome == Sent) else t
    case TooBig(k, timestamp, _) => if k == kind then t.(last := timestamp) else t
    case _ => t
  }

  class Reader {
    const file: seq<Byte>
    var offset: nat
    var audio: Track
    var video: Track

    constructor (file: seq<Byte>)
      ensures this.file == file && offset == DATA_OFFSET && audio == video == Track(0, false)
    {
      this.file, offset, audio, video := file, DATA_OFFSET, Track(0, false), Track(0, false);
    }

    /** The header fields are parsed and the offset moves on before anything can fail. A message goes out
        with a timestamp relative to `base`, if there is one. */
    method Send(outcome: Outcome) returns (v: Visit, base: Option<Time>)
      modifies this
      ensures (v, offset) == Visited(file, old(offset))
      ensures v != Torn ==> audio == Advanced(old(audio), v, AUDIO, outcome)
      ensures v != Torn ==> video == Advanced(old(video), v, VIDEO, outcome)
      ensures v == Torn ==> audio.started == old(audio).started && video.started == old(video).started
      ensures !v.Play? ==> base == None
      ensures v.Play? ==>
        base == Base(if v.message.kind == AUDIO then old(audio) else old(video))
    {
      base := None;
      var header := ReadAt(file, offset, TAG_HEADER);
      if |header| != TAG_HEADER {
        v := End;
        return;
      }
      var kind, size, timestamp := header[0], TagSize(header), TimeOf(header[4..8]);
      offset := offset + TAG_HEADER + size + 4;
      var last: Time;
      if kind == AUDIO {
        last, audio := audio.last, audio.(last := timestamp);
      } else if kind == VIDEO {
        last, video := video.last, video.(last := timestamp);
      } else {
        v := Other(kind, timestamp, size);
        return;
      }
      if size > BUFFER {
        v := TooBig(kind, timestamp, size);
        return;
      }
      var body := ReadAt(file, offset - size - 4, size);
      if |body| != size {
        v := Torn;
        return;
      }
      v := Play(Message(kind, timestamp, body));
      base := if (if kind == AUDIO then audio.started else video.started) then Some(last) else None;
      if outcome == Sent {
        if kind == AUDIO {
          audio := audio.(started := true);
        } else {
          video := video.(started := true);
        }
      }
    }
  }

  function Base(t: Track): Option<Time> {
    if t.started then Some(t.last) else None
  }

  // ------------------------------------------- the writer's stream, walked

  /** What a reader can be expected to make of a message. */
  function Expected(m: Message): Visit {
    if m.kind != 8 && m.kind != 9 then Other(m.kind, m.timestamp, |m.payload|)
    else if |m.payload| > 1024 * 1024 then TooBig(m.kind, m.timestamp, |m.payload|)
    else Play(m)
  }

  function ExpectedAll(ms: seq<Message>): seq<Visit> {
    if ms == [] then [End] else [Expected(ms[0])] + ExpectedAll(ms[1..])
  }

  /** A five-bit type and a 24-bit size. */
  predicate Fits(m: Message) {
    m.kind < 0x20 && |m.payload| < 0x100_0000
  }

  lemma TimeInverse(t: Time)
    ensures TimeOf(TagTime(t)) == t
  {
    U24Inverse(t % 0x100_0000);
    assert TagTime(t)[..3] == U24(t % 0x100_0000);
  }

  lemma {:induction false} HeaderFields(kind: Byte, size: nat, timestamp: Time)
    ensures var h := TagHeader(kind, size, timestamp);
            h[0] == kind % 0x20 && TagSize(h) == size % 0x100_0000 && TimeOf(h[4..8]) == timestamp
  {
    var h := TagHeader(kind, size, timestamp);
    var n := U24(size % 0x100_0000);
    assert h == [kind % 0x20] + n + TagTime(timestamp) + [0, 0, 0];
    assert h[1..4] == n && h[4..8] == TagTime(timestamp);
    U24Inverse(size % 0x100_0000);
    TimeInverse(timestamp);
  }

  /** The first of the tags at `offset`. */
  lemma {:induction false} FirstTag(file: seq<Byte>, offset: nat, m: Message, rest: seq<Byte>)
    requires offset <= |file| && file[offset..] == Tag(m) + rest
    ensures var (v, next) := Visited(file, offset);
            if Fits(m) then v == Expected(m) && next == offset + |Tag(m)| && file[next..] == rest
            else v != Expected(m)
  {
    var n := |m.payload|;
    var header, trailer := TagHeader(m.kind, n, m.timestamp), U32((n + TAG_HEADER) % 0x1_0000_0000);
    Pieces(file, offset, header, m.payload, trailer, rest);
    HeaderFields(m.kind, n, m.timestamp);
    VisitedBy(file, offset, header, m.payload, m);
  }

  /** The visit of a tag whose header and payload are known. */
  lemma VisitedBy(file: seq<Byte>, offset: nat, header: seq<Byte>, payload: seq<Byte>, m: Message)
    requires |header| == TAG_HEADER && ReadAt(file, offset, TAG_HEADER) == header
    requires ReadAt(file, offset + TAG_HEADER, |payload|) == payload == m.payload
    requires header[0] == m.kind % 0x20 && TagSize(header) == |payload| % 0x100_0000
    requires TimeOf(header[4..8]) == m.timestamp
    ensures var (v, next) := Visited(file, offset);
            if Fits(m) then v == Expected(m) && next == offset + TAG_HEADER + |payload| + 4 else v != Expected(m)
  {
  }

  lemma Pieces(file: seq<Byte>, offset: nat, a: seq<Byte>, b: seq<Byte>, c: seq<Byte>, rest: seq<Byte>)
    requires offset <= |file| && file[offset..] == a + b + c + rest
    ensures var k := offset + |a|;
            && ReadAt(file, offset, |a|) == a
            && ReadAt(file, k, |b|) == b
            && file[k + |b| + |c|..] == rest
  {
    var tail, k := file[offset..], offset + |a|;
    assert tail == a + (b + (c + rest));
    assert file[offset..k] == tail[..|a|];
    assert file[k..k + |b|] == tail[|a|..|a| + |b|];
    assert file[k + |b| + |c|..] == tail[|a| + |b| + |c|..];
  }

  /** The walk over a stream visits every message in order with its type, timestamp and payload exactly
      if all of them fit their fields. */
  lemma {:induction false} WalkFindsAll(file: seq<Byte>, offset: nat, ms: seq<Message>)
    requires offset <= |file| && file[offset..] == Tags(ms)
    ensures Walk(file, offset) == ExpectedAll(ms) <==> forall m <- ms :: Fits(m)
    decreases |ms|
  {
    if ms != [] {
      FirstTag(file, offset, ms[0], Tags(ms[1..]));
      var (v, next) := Visited(file, offset);
      WalkStep(file, offset, ms);
      assert ms == [ms[0]] + ms[1..];
      if Fits(ms[0]) {
        WalkFindsAll(file, next, ms[1..]);
      }
    }
  }

  lemma {:induction false} WalkStep(file: seq<Byte>, offset: nat, ms: seq<Message>)
    requires ms != []
    ensures var (v, next) := Visited(file, offset);
            Walk(file, offset) == ExpectedAll(ms)
            ==> v == Expected(ms[0]) && (next <= |file| ==> Walk(file, next) == ExpectedAll(ms[1..]))
    ensures var (v, next) := Visited(file, offset);
            v == Expected(ms[0]) && next <= |file| && Walk(file, next) == ExpectedAll(ms[1..])
            ==> Walk(file, offset) == ExpectedAll(ms)
  {
    var (v, next) := Visited(file, offset);
    var walk, all := Walk(file, offset), ExpectedAll(ms);
    if next <= |file| && v != End && v != Torn {
      assert walk == [v] + Walk(file, next);
      assert walk[1..] == Walk(file, next) && all[1..] == ExpectedAll(ms[1..]);
    }
    assert walk[0] == v && all[0] == Expected(ms[0]);
  }

  /** A stored copy of the stream. */
  lemma StoredStreamIsFound(audio: bool, video: bool, ms: seq<Message>)
    ensures Walk(FlvHeader(audio, video) + Tags(ms), DATA_OFFSET) == ExpectedAll(ms) <==> forall m <- ms :: Fits(m)
  {
    var file := FlvHeader(audio, video) + Tags(ms);
    assert file[DATA_OFFSET..] == Tags(ms);
    WalkFindsAll(file, DATA_OFFSET, ms);
  }

  // ------------------------------------------------------- the peer's clock

  /** One tag of a track, and whether it was sent. */
  datatype Step = Step(timestamp: Time, sent: bool)

  /** The peer adds what it receives to its clock, unless the message carries its own time. */
  function Received(clock: Time, timestamp: Time, base: Option<Time>): (t: Time) {
    if base.None? then timestamp else (clock + (timestamp - base.value) % 0x1_0000_0000) % 0x1_0000_0000
  }

  function TrackAfter(steps: seq<Step>): Track {
    if steps == [] then Track(0, false)
    else
      var s := steps[|steps| - 1];
      Track(s.timestamp, TrackAfter(steps[..|steps| - 1]).started || s.sent)
  }

  function ClockAfter(steps: seq<Step>): Time {
    if steps == [] then 0
    else
      var front, s := steps[..|steps| - 1], steps[|steps| - 1];
      if s.sent then Received(ClockAfter(front), s.timestamp, Base(TrackAfter(front))) else ClockAfter(front)
  }

  /** What a visit adds to the history of one track. */
  function StepsOf(v: Visit, kind: Byte, outcome: Outcome): seq<Step> {
    match v
    case Play(m) => if m.kind == kind then [Step(m.timestamp, outcome == Sent)] else []
    case TooBig(k, timestamp, _) => if k == kind then [Step(timestamp, false)] else []
    case _ => []
  }

  lemma {:induction false} TrackFollows(steps: seq<Step>, v: Visit, kind: Byte, outcome: Outcome)
    ensures TrackAfter(steps + StepsOf(v, kind, outcome)) == Advanced(TrackAfter(steps), v, kind, outcome)
  {
    var more := StepsOf(v, kind, outcome);
    if more == [] {
      assert steps + more == steps;
    } else {
      assert (steps + more)[..|steps|] == steps;
    }
  }

  /** Every message sent reached the peer with its own timestamp. */
  ghost predicate OnTime(steps: seq<Step>) {
    forall i | 0 <= i < |steps| && steps[i].sent :: ClockAfter(steps[..i + 1]) == steps[i].timestamp
  }

  /** No tag with a new timestamp was lost between two messages sent. */
  ghost predicate NoTimeLost(steps: seq<Step>) {
    forall i, k | 0 <= i < k < |steps| && Neighbours(steps, i, k) :: steps[k - 1].timestamp == steps[i].timestamp
  }

  /** `i` and `k` were sent and nothing between them. */
  ghost predicate Neighbours(steps: seq<Step>, i: int, k: int)
    requires 0 <= i < k < |steps|
  {
    steps[i].sent && steps[k].sent && forall j | i < j < k :: !steps[j].sent
  }

  ghost predicate LastSent(steps: seq<Step>, i: int) {
    0 <= i < |steps| && steps[i].sent && forall j | i < j < |steps| :: !steps[j].sent
  }

  /** Where the clock stands: at the last message sent. */
  lemma {:induction false} ClockHolds(steps: seq<Step>)
    ensures TrackAfter(steps).started <==> exists i :: LastSent(steps, i)
    ensures forall i | LastSent(steps, i) :: ClockAfter(steps) == ClockAfter(steps[..i + 1])
  {
    if steps != [] {
      var n := |steps| - 1;
      var front := steps[..n];
      ClockHolds(front);
      if steps[n].sent {
        assert LastSent(steps, n) && steps[..n + 1] == steps;
      } else {
        forall i ensures LastSent(steps, i) <==> LastSent(front, i) {
        }
        forall i | LastSent(steps, i) ensures ClockAfter(steps) == ClockAfter(steps[..i + 1]) {
          assert front[..i + 1] == steps[..i + 1];
        }
        if TrackAfter(front).started {
          var i :| LastSent(front, i);
          assert LastSent(steps, i);
        }
      }
    }
  }

  lemma OnTimeStep(front: seq<Step>, s: Step)
    ensures OnTime(front + [s]) <==> OnTime(front) && (s.sent ==> ClockAfter(front + [s]) == s.timestamp)
  {
    var steps, n := front + [s], |front|;
    assert steps[..n + 1] == steps;
    forall i {:trigger front[i]} | 0 <= i < n ensures front[..i + 1] == steps[..i + 1] && front[i] == steps[i] {
    }
  }

  lemma NoTimeLostStep(front: seq<Step>, s: Step)
    ensures NoTimeLost(front + [s]) <==>
            && NoTimeLost(front)
            && (s.sent ==> forall i | LastSent(front, i) :: front[|front| - 1].timestamp == front[i].timestamp)
  {
    var steps, n := front + [s], |front|;
    forall i, k | 0 <= i < k < n ensures Neighbours(front, i, k) <==> Neighbours(steps, i, k) {
      assert forall j | i < j < k :: steps[j] == front[j];
    }
    forall i | 0 <= i < n ensures Neighbours(steps, i, n) <==> s.sent && LastSent(front, i) {
      assert forall j | i < j < n :: steps[j] == front[j];
    }
  }

  lemma Relative(clock: Time, last: Time, timestamp: Time)
    ensures Received(clock, timestamp, Some(last)) == timestamp <==> clock == last
  {
  }

  /** The reader moves its reference time on even for tags it does not send: the peer's clock is right
      exactly if no tag with a new timestamp was lost on the way. */
  lemma {:induction false} PeerClock(steps: seq<Step>)
    ensures OnTime(steps) <==> NoTimeLost(steps)
    decreases |steps|
  {
    if steps != [] {
      var n := |steps| - 1;
      var front, s := steps[..n], steps[n];
      assert steps == front + [s];
      PeerClock(front);
      OnTimeStep(front, s);
      NoTimeLostStep(front, s);
      ClockHolds(front);
      if s.sent && OnTime(front) && TrackAfter(front).started {
        var i :| LastSent(front, i);
        assert ClockAfter(front) == front[i].timestamp;
        Relative(ClockAfter(front), front[n - 1].timestamp, s.timestamp);
      }
    }
  }
}
