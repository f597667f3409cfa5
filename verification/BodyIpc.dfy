/** The body's length-prefixed IPC framing (`ipc.rs`) and the buffer that the
    command loop drains (`run.rs`). The MessagePack body codec is a parameter:
    a partial encoder and a partial decoder that inverts it. */
module BodyIpc {
  import opened Prelude

  const PREFIX: nat := 4
  const MAX_FRAME_BYTES: nat := 64 * 1024
  /** The most that a drained buffer can hold back: one byte short of the largest frame. */
  const MAX_LEFTOVER: nat := PREFIX + MAX_FRAME_BYTES - 1
  const READ_BYTES: nat := 4096

  type Bytes = seq<byte>

  datatype IpcError =
    | FrameTooLarge(len: nat)
    | Truncated(have: nat, need: nat)
    | DecodeFailed
    | EncodeFailed

  datatype Result<+T> = Ok(value: T) | Err(error: IpcError)

  /** The body codec: encoding and decoding may both refuse. */
  datatype Codec<!M> = Codec(encode: M -> Option<Bytes>, decode: Bytes -> Option<M>)

  /** What the codec owes its callers: decoding inverts encoding. */
  ghost predicate Lawful<M(!new)>(codec: Codec<M>) {
    forall m: M :: codec.encode(m).Some? ==> codec.decode(codec.encode(m).value) == Some(m)
  }

  // ---------------------------------------------------------------- framing

  /** `u32::to_be_bytes`. */
  function ToBigEndian(n: nat): (b: Bytes)
    requires n <= U32_MAX
    ensures |b| == PREFIX
  {
    [n / 0x100_0000, n / 0x1_0000 % 0x100, n / 0x100 % 0x100, n % 0x100]
  }

  /** `u32::from_be_bytes` on the first four bytes. */
  function FromBigEndian(b: Bytes): (n: nat)
    requires |b| >= PREFIX
    ensures n <= U32_MAX
  {
    var high: int, mid: int, low: int := b[0], b[1], b[2];
    high * 0x100_0000 + mid * 0x1_0000 + low * 0x100 + b[3]
  }

  /** Prefixes compare by their first byte first: the order of big-endian numbers. */
  lemma FirstByteWeighsMost(a: Bytes, b: Bytes)
    requires |a| >= PREFIX && |b| >= PREFIX
    ensures FromBigEndian(a) < FromBigEndian(b) <==> exists i :: 0 <= i < PREFIX && a[..i] == b[..i] && a[i] < b[i]
  {
    assert a[..0] == b[..0];
    forall i | 0 <= i < PREFIX ensures a[..i + 1] == b[..i + 1] <==> a[..i] == b[..i] && a[i] == b[i] {
      assert a[..i + 1] == a[..i] + [a[i]] && b[..i + 1] == b[..i] + [b[i]];
    }
  }

  lemma BigEndianRoundTrip(n: nat, rest: Bytes)
    requires n <= U32_MAX
    ensures FromBigEndian(ToBigEndian(n) + rest) == n
  {
    var b := ToBigEndian(n);
    assert forall i :: 0 <= i < PREFIX ==> (b + rest)[i] == b[i];
    var a, c, d := n / 0x100_0000, n / 0x1_0000, n / 0x100;
    assert d == n / 0x100 && n == d * 0x100 + n % 0x100;
    assert c == d / 0x100 && d == c * 0x100 + d % 0x100;
    assert a == c / 0x100 && c == a * 0x100 + c % 0x100;
  }

  function FrameLen(bytes: Bytes): (r: Result<nat>)
    ensures r.Ok? ==> PREFIX <= r.value <= |bytes| && r.value <= PREFIX + MAX_FRAME_BYTES
    ensures r.Err? && r.error.Truncated? ==> |bytes| <= MAX_LEFTOVER && |bytes| == r.error.have < r.error.need
  {
    if |bytes| < PREFIX then Err(Truncated(|bytes|, PREFIX))
    else
      var claimed := FromBigEndian(bytes);
      if claimed > MAX_FRAME_BYTES then Err(FrameTooLarge(claimed))
      else
        var need := PREFIX + claimed;
        if |bytes| < need then Err(Truncated(|bytes|, need)) else Ok(need)
  }

  function EncodeNamed<M>(codec: Codec<M>, message: M): Result<Bytes> {
    match codec.encode(message)
    case None => Err(EncodeFailed)
    case Some(body) =>
      if |body| > MAX_FRAME_BYTES then Err(FrameTooLarge(|body|))
      else Ok(Framed(body))
  }

  function DecodeNamed<M>(codec: Codec<M>, bytes: Bytes): Result<(M, nat)> {
    match FrameLen(bytes)
    case Err(error) => Err(error)
    case Ok(need) =>
      match codec.decode(bytes[PREFIX..need])
      case None => Err(DecodeFailed)
      case Some(message) => Ok((message, need))
  }

  /** A body behind its length prefix. */
  function Framed(body: Bytes): (frame: Bytes)
    requires |body| <= MAX_FRAME_BYTES
    ensures |frame| == PREFIX + |body|
  {
    ToBigEndian(|body|) + body
  }

  /** A framed body is recognised whole whatever follows it. */
  lemma FramedLen(body: Bytes, rest: Bytes)
    requires |body| <= MAX_FRAME_BYTES
    ensures FrameLen(Framed(body) + rest) == Ok(PREFIX + |body|)
    ensures (Framed(body) + rest)[PREFIX..PREFIX + |body|] == body
    ensures (Framed(body) + rest)[PREFIX + |body|..] == rest
  {
    BigEndianRoundTrip(|body|, body + rest);
    assert Framed(body) + rest == ToBigEndian(|body|) + (body + rest);
  }

  /** Every verdict on a length: what is missing, what is too large, and what is whole,
      each with its numbers. */
  lemma FrameLenIff(bytes: Bytes)
    ensures |bytes| < PREFIX ==> FrameLen(bytes) == Err(Truncated(|bytes|, PREFIX))
    ensures |bytes| >= PREFIX ==>
              var body := FromBigEndian(bytes);
              && (FrameLen(bytes) == Err(FrameTooLarge(body)) <==> body > MAX_FRAME_BYTES)
              && (FrameLen(bytes) == Err(Truncated(|bytes|, PREFIX + body)) <==>
                    body <= MAX_FRAME_BYTES && |bytes| < PREFIX + body)
              && (FrameLen(bytes) == Ok(PREFIX + body) <==> body <= MAX_FRAME_BYTES && |bytes| >= PREFIX + body)
  {
  }

  /** When encoding and decoding fail, and with which error. */
  lemma CodecErrors<M>(codec: Codec<M>, message: M, bytes: Bytes)
    ensures EncodeNamed(codec, message) == Err(EncodeFailed) <==> codec.encode(message).None?
    ensures forall n :: EncodeNamed(codec, message) == Err(FrameTooLarge(n)) <==>
              codec.encode(message).Some? && n == |codec.encode(message).value| > MAX_FRAME_BYTES
    ensures DecodeNamed(codec, bytes) == Err(DecodeFailed) <==>
              FrameLen(bytes).Ok? && codec.decode(bytes[PREFIX..FrameLen(bytes).value]).None?
    ensures FrameLen(bytes).Err? ==> DecodeNamed(codec, bytes) == Err(FrameLen(bytes).error)
  {
    if FrameLen(bytes).Err? { FrameLenIff(bytes); }
  }

  /** Every message that encodes decodes back, and the decoder consumes exactly
      the encoded bytes whatever follows them. */
  lemma CodecRoundTrip<M(!new)>(codec: Codec<M>, message: M, rest: Bytes)
    requires Lawful(codec)
    requires EncodeNamed(codec, message).Ok?
    ensures var frame := EncodeNamed(codec, message).value;
            DecodeNamed(codec, frame + rest) == Ok((message, |frame|))
  {
    FramedLen(codec.encode(message).value, rest);
  }

  /** More bytes never change a verdict other than `Truncated`. */
  lemma FrameLenStable(bytes: Bytes, extra: Bytes)
    ensures FrameLen(bytes).Err? && !FrameLen(bytes).error.Truncated? ==> FrameLen(bytes + extra) == FrameLen(bytes)
    ensures FrameLen(bytes).Ok? ==>
              var need := FrameLen(bytes).value;
              FrameLen(bytes + extra) == Ok(need) &&
              (bytes + extra)[PREFIX..need] == bytes[PREFIX..need] &&
              (bytes + extra)[need..] == bytes[need..] + extra
  {
    if |bytes| >= PREFIX {
      assert (bytes + extra)[..PREFIX] == bytes[..PREFIX];
    }
  }

  // ---------------------------------------------------------------- draining

  datatype Verdict = Waiting | Stopped | Fatal(error: IpcError)

  /** The commands a drain handled, the bytes it left, and why it returned. */
  datatype Drained<+M> = Drained(log: seq<M>, rest: Bytes, verdict: Verdict)

  /** What is left to do once the first frame of `bytes` is gone. */
  function Drain<M>(codec: Codec<M>, shutdown: M -> bool, bytes: Bytes): Drained<M>
    decreases |bytes|
  {
    match FrameLen(bytes)
    case Err(error) =>
      Drained([], bytes, if error.Truncated? then Waiting else Fatal(error))
    case Ok(need) =>
      match codec.decode(bytes[PREFIX..need])
      case None => Drain(codec, shutdown, bytes[need..])
      case Some(command) =>
        if shutdown(command) then Drained([command], bytes[need..], Stopped)
        else Prepend([command], Drain(codec, shutdown, bytes[need..]))
  }

  function Prepend<M>(log: seq<M>, d: Drained<M>): Drained<M> {
    d.(log := log + d.log)
  }

  /** The whole run over the chunks: an empty read is the peer's end of stream,
      and nothing is read once the loop has returned. */
  function Feed<M>(codec: Codec<M>, shutdown: M -> bool, buffered: Bytes, chunks: seq<Bytes>): Drained<M>
    decreases |chunks|
  {
    if chunks == [] || chunks[0] == [] then Drained([], buffered, Waiting)
    else
      var d := Drain(codec, shutdown, buffered + chunks[0]);
      if d.verdict != Waiting then d else Prepend(d.log, Feed(codec, shutdown, d.rest, chunks[1..]))
  }

  function Concat(chunks: seq<Bytes>): Bytes {
    if chunks == [] then [] else chunks[0] + Concat(chunks[1..])
  }

  /** What a drain that returned `d` has done once `extra` has arrived too. */
  function Resume<M>(codec: Codec<M>, shutdown: M -> bool, d: Drained<M>, extra: Bytes): Drained<M> {
    if d.verdict == Waiting then Prepend(d.log, Drain(codec, shutdown, d.rest + extra))
    else d.(rest := d.rest + extra)
  }

  lemma ResumePrepend<M>(codec: Codec<M>, shutdown: M -> bool, log: seq<M>, d: Drained<M>, extra: Bytes)
    ensures Resume(codec, shutdown, Prepend(log, d), extra) == Prepend(log, Resume(codec, shutdown, d, extra))
  {
    if d.verdict == Waiting {
      var r := Drain(codec, shutdown, d.rest + extra);
      assert log + d.log + r.log == log + (d.log + r.log);
    }
  }

  lemma {:induction false} DrainUnfolds<M>(codec: Codec<M>, shutdown: M -> bool, bytes: Bytes)
    requires FrameLen(bytes).Ok?
    ensures var need := FrameLen(bytes).value;
            var m, later := codec.decode(bytes[PREFIX..need]), bytes[need..];
            Drain(codec, shutdown, bytes) ==
            if m.None? then Drain(codec, shutdown, later)
            else if shutdown(m.value) then Drained([m.value], later, Stopped)
            else Prepend([m.value], Drain(codec, shutdown, later))
  {
  }

  /** Draining a prefix first and the leftover with the remaining bytes later
      is draining everything at once. */
  lemma {:induction false} DrainSplit<M>(codec: Codec<M>, shutdown: M -> bool, bytes: Bytes, extra: Bytes)
    ensures Drain(codec, shutdown, bytes + extra) == Resume(codec, shutdown, Drain(codec, shutdown, bytes), extra)
    decreases |bytes|
  {
    FrameLenStable(bytes, extra);
    match FrameLen(bytes)
    case Err(_) =>
      assert Prepend([], Drain(codec, shutdown, bytes + extra)) == Drain(codec, shutdown, bytes + extra);
    case Ok(need) =>
      DrainSplit(codec, shutdown, bytes[need..], extra);
      SplitBehindFrame(codec, shutdown, bytes, extra, need);
  }

  lemma FrameInLonger(bytes: Bytes, extra: Bytes, need: nat)
    requires PREFIX <= need <= |bytes|
    ensures (bytes + extra)[PREFIX..need] == bytes[PREFIX..need] && (bytes + extra)[need..] == bytes[need..] + extra
  {
  }

  lemma SplitBehindFrame<M>(codec: Codec<M>, shutdown: M -> bool, bytes: Bytes, extra: Bytes, need: nat)
    requires FrameLen(bytes) == Ok(need) && FrameLen(bytes + extra) == Ok(need)
    requires Drain(codec, shutdown, bytes[need..] + extra)
             == Resume(codec, shutdown, Drain(codec, shutdown, bytes[need..]), extra)
    ensures Drain(codec, shutdown, bytes + extra) == Resume(codec, shutdown, Drain(codec, shutdown, bytes), extra)
  {
    var m, later := codec.decode(bytes[PREFIX..need]), bytes[need..];
    FrameInLonger(bytes, extra, need);
    DrainUnfolds(codec, shutdown, bytes);
    DrainUnfolds(codec, shutdown, bytes + extra);
    if m.Some? && !shutdown(m.value) {
      ResumePrepend(codec, shutdown, [m.value], Drain(codec, shutdown, later), extra);
    }
  }

  /** A drained leftover is an incomplete frame, so draining it again changes
      nothing, and it is short. */
  lemma {:induction false} LeftoverBound<M>(codec: Codec<M>, shutdown: M -> bool, bytes: Bytes)
    ensures var d := Drain(codec, shutdown, bytes);
            |d.rest| <= |bytes| &&
            (d.verdict == Waiting ==>
               |d.rest| <= MAX_LEFTOVER && Drain(codec, shutdown, d.rest) == Drained([], d.rest, Waiting))
    decreases |bytes|
  {
    match FrameLen(bytes)
    case Err(_) =>
    case Ok(need) => LeftoverBound(codec, shutdown, bytes[need..]);
  }

  /** With reads of at most 4,096 bytes the buffer never exceeds 69,635 bytes. */
  lemma BufferBound<M>(codec: Codec<M>, shutdown: M -> bool, bytes: Bytes, read: Bytes)
    requires |read| <= READ_BYTES
    requires Drain(codec, shutdown, bytes).verdict == Waiting
    ensures |Drain(codec, shutdown, bytes).rest + read| <= 69635
  {
    LeftoverBound(codec, shutdown, bytes);
  }

  /** Chunk independence against the single drain: however the stream is cut
      into non-empty chunks, the run handles the same commands, stops at the same
      one and reports the same fatal frame as one drain of the whole stream. */
  lemma {:induction false} FeedIsDrain<M>(codec: Codec<M>, shutdown: M -> bool, buffered: Bytes, chunks: seq<Bytes>)
    requires forall i :: 0 <= i < |chunks| ==> chunks[i] != []
    requires Drain(codec, shutdown, buffered) == Drained([], buffered, Waiting)
    ensures var fed, whole := Feed(codec, shutdown, buffered, chunks),
            Drain(codec, shutdown, buffered + Concat(chunks));
            fed.log == whole.log && fed.verdict == whole.verdict &&
            (fed.verdict == Waiting ==> fed.rest == whole.rest)
    decreases |chunks|
  {
    if chunks == [] {
      assert buffered + Concat(chunks) == buffered;
    } else {
      var first := buffered + chunks[0];
      var later := Concat(chunks[1..]);
      assert buffered + Concat(chunks) == first + later;
      DrainSplit(codec, shutdown, first, later);
      LeftoverBound(codec, shutdown, first);
      var d := Drain(codec, shutdown, first);
      if d.verdict == Waiting {
        FeedIsDrain(codec, shutdown, d.rest, chunks[1..]);
      }
    }
  }

  /** Two ways of cutting the same stream into reads cannot be told apart. */
  lemma ChunkIndependence<M>(codec: Codec<M>, shutdown: M -> bool, left: seq<Bytes>, right: seq<Bytes>)
    requires forall i :: 0 <= i < |left| ==> left[i] != []
    requires forall i :: 0 <= i < |right| ==> right[i] != []
    requires Concat(left) == Concat(right)
    ensures var l, r := Feed(codec, shutdown, [], left), Feed(codec, shutdown, [], right);
            l.log == r.log && l.verdict == r.verdict && (l.verdict == Waiting ==> l.rest == r.rest)
  {
    FeedIsDrain(codec, shutdown, [], left);
    FeedIsDrain(codec, shutdown, [], right);
  }

  // ------------------------------------------- what a stream of frames means

  /** The bodies in order, each behind its length prefix. */
  function Wire(bodies: seq<Bytes>): Bytes
    requires forall i :: 0 <= i < |bodies| ==> |bodies[i]| <= MAX_FRAME_BYTES
  {
    if bodies == [] then [] else Framed(bodies[0]) + Wire(bodies[1..])
  }

  /** The messages among the bodies; a body that does not decode is skipped. */
  function Decodable<M>(codec: Codec<M>, bodies: seq<Bytes>): seq<M> {
    if bodies == [] then []
    else
      (match codec.decode(bodies[0])
       case Some(m) => [m]
       case None => []) + Decodable(codec, bodies[1..])
  }

  /** The messages up to and including the first shutdown. */
  function UpToShutdown<M>(shutdown: M -> bool, messages: seq<M>): seq<M> {
    if messages == [] then []
    else if shutdown(messages[0]) then [messages[0]]
    else [messages[0]] + UpToShutdown(shutdown, messages[1..])
  }

  predicate HasShutdown<M>(shutdown: M -> bool, messages: seq<M>) {
    exists i :: 0 <= i < |messages| && shutdown(messages[i])
  }

  /** Resynchronisation: on any sequence of in-limit frames followed by an
      incomplete one, a drain handles exactly the decodable messages in order,
      up to the first shutdown, and keeps exactly the incomplete tail. */
  lemma {:induction false} DrainHandlesWire<M>(codec: Codec<M>, shutdown: M -> bool, bodies: seq<Bytes>, tail: Bytes)
    requires forall i :: 0 <= i < |bodies| ==> |bodies[i]| <= MAX_FRAME_BYTES
    requires FrameLen(tail).Err? && FrameLen(tail).error.Truncated?
    ensures var d, messages := Drain(codec, shutdown, Wire(bodies) + tail), Decodable(codec, bodies);
            d.log == UpToShutdown(shutdown, messages) &&
            d.verdict == (if HasShutdown(shutdown, messages) then Stopped else Waiting) &&
            (d.verdict == Waiting ==> d.rest == tail)
    decreases |bodies|
  {
    if bodies == [] {
      assert Wire(bodies) + tail == tail;
    } else {
      var later := Wire(bodies[1..]) + tail;
      assert Wire(bodies) + tail == Framed(bodies[0]) + later;
      FramedLen(bodies[0], later);
      DrainHandlesWire(codec, shutdown, bodies[1..], tail);
      var messages, others := Decodable(codec, bodies), Decodable(codec, bodies[1..]);
      match codec.decode(bodies[0])
      case None => assert messages == others;
      case Some(m) =>
        assert messages[0] == m && messages[1..] == others;
        if shutdown(m) {
          assert HasShutdown(shutdown, messages);
        } else if HasShutdown(shutdown, messages) {
          var i :| 0 <= i < |messages| && shutdown(messages[i]);
          assert shutdown(others[i - 1]);
        }
    }
  }

  lemma BigEndianInverse(b: Bytes)
    requires |b| >= PREFIX
    ensures ToBigEndian(FromBigEndian(b)) == b[..PREFIX]
  {
    var n := FromBigEndian(b);
    var high: int, mid: int, low: int, last: int := b[0], b[1], b[2], b[3];
    assert n / 0x100 == high * 0x1_0000 + mid * 0x100 + low;
    assert n / 0x1_0000 == high * 0x100 + mid;
    assert n / 0x100_0000 == high;
  }

  lemma FrameAhead<M>(codec: Codec<M>, body: Bytes, others: seq<Bytes>)
    requires |body| <= MAX_FRAME_BYTES && forall i :: 0 <= i < |others| ==> |others[i]| <= MAX_FRAME_BYTES
    ensures Wire([body] + others) == Framed(body) + Wire(others)
    ensures Decodable(codec, [body] + others)
            == (if codec.decode(body).Some? then [codec.decode(body).value] else []) + Decodable(codec, others)
  {
    assert ([body] + others)[1..] == others;
  }

  /** Bytes that start with a frame are that frame and what is behind it. */
  lemma HeadFrame(bytes: Bytes, need: nat)
    requires FrameLen(bytes) == Ok(need)
    ensures PREFIX <= need <= |bytes| && need - PREFIX <= MAX_FRAME_BYTES
    ensures bytes == Framed(bytes[PREFIX..need]) + bytes[need..]
  {
    BigEndianInverse(bytes);
    assert bytes[..need] == bytes[..PREFIX] + bytes[PREFIX..need];
  }

  /** Nothing is lost and nothing is made up: whatever a drain returned, the
      bytes it consumed are whole in-limit frames, and it handled exactly the
      messages that decode from their bodies. */
  lemma {:induction false} DrainConsumesFrames<M>(codec: Codec<M>, shutdown: M -> bool, bytes: Bytes)
    returns (bodies: seq<Bytes>)
    ensures forall i :: 0 <= i < |bodies| ==> |bodies[i]| <= MAX_FRAME_BYTES
    ensures var d := Drain(codec, shutdown, bytes);
            bytes == Wire(bodies) + d.rest && d.log == Decodable(codec, bodies)
    decreases |bytes|
  {
    match FrameLen(bytes)
    case Err(_) => bodies := [];
    case Ok(need) =>
      HeadFrame(bytes, need);
      DrainUnfolds(codec, shutdown, bytes);
      var body, later := bytes[PREFIX..need], bytes[need..];
      var others: seq<Bytes> := [];
      if codec.decode(body).None? || !shutdown(codec.decode(body).value) {
        others := DrainConsumesFrames(codec, shutdown, later);
      }
      FrameAhead(codec, body, others);
      Regroup(Framed(body), Wire(others), Drain(codec, shutdown, bytes).rest);
      bodies := [body] + others;
  }

  lemma Regroup(a: Bytes, b: Bytes, c: Bytes)
    ensures a + (b + c) == a + b + c
  {
  }

  /** One frame of a stream: a message, or a body within the limit that no
      message decodes from. */
  datatype Frame<+M> = Good(message: M) | Junk(body: Bytes)

  function BodyOf<M>(codec: Codec<M>, frame: Frame<M>): Option<Bytes> {
    match frame
    case Good(m) => codec.encode(m)
    case Junk(body) => if codec.decode(body).None? then Some(body) else None
  }

  ghost predicate Sendable<M>(codec: Codec<M>, frames: seq<Frame<M>>) {
    forall i :: 0 <= i < |frames| ==>
        BodyOf(codec, frames[i]).Some? && |BodyOf(codec, frames[i]).value| <= MAX_FRAME_BYTES
  }

  function Bodies<M>(codec: Codec<M>, frames: seq<Frame<M>>): (bodies: seq<Bytes>)
    requires forall i :: 0 <= i < |frames| ==> BodyOf(codec, frames[i]).Some?
    ensures |bodies| == |frames|
    ensures forall i :: 0 <= i < |frames| ==> bodies[i] == BodyOf(codec, frames[i]).value
  {
    seq(|frames|, i requires 0 <= i < |frames| => BodyOf(codec, frames[i]).value)
  }

  function Messages<M>(frames: seq<Frame<M>>): seq<M> {
    if frames == [] then []
    else (if frames[0].Good? then [frames[0].message] else []) + Messages(frames[1..])
  }

  lemma {:induction false} DecodableBodies<M(!new)>(codec: Codec<M>, frames: seq<Frame<M>>)
    requires Lawful(codec) && Sendable(codec, frames)
    ensures Decodable(codec, Bodies(codec, frames)) == Messages(frames)
    decreases |frames|
  {
    if frames != [] {
      assert Bodies(codec, frames)[1..] == Bodies(codec, frames[1..]);
      DecodableBodies(codec, frames[1..]);
    }
  }

  /** The codec round trip over a whole connection: messages encoded by the
      parent, mixed with junk frames and cut into reads anywhere, are handled
      in order and completely up to the first shutdown. */
  lemma StreamRoundTrip<M(!new)>(codec: Codec<M>, shutdown: M -> bool, frames: seq<Frame<M>>, chunks: seq<Bytes>)
    requires Lawful(codec) && Sendable(codec, frames)
    requires forall i :: 0 <= i < |chunks| ==> chunks[i] != []
    requires Concat(chunks) == Wire(Bodies(codec, frames))
    ensures var fed := Feed(codec, shutdown, [], chunks);
            fed.log == UpToShutdown(shutdown, Messages(frames)) &&
            fed.verdict == (if HasShutdown(shutdown, Messages(frames)) then Stopped else Waiting) &&
            (fed.verdict == Waiting ==> fed.rest == [])
  {
    var bodies := Bodies(codec, frames);
    FeedIsDrain(codec, shutdown, [], chunks);
    DrainHandlesWire(codec, shutdown, bodies, []);
    DecodableBodies(codec, frames);
    assert Wire(bodies) + [] == Wire(bodies);
    assert [] + Concat(chunks) == Wire(bodies);
  }

  lemma FeedUnfolds<M>(codec: Codec<M>, shutdown: M -> bool, buffered: Bytes, chunks: seq<Bytes>, i: nat)
    requires i < |chunks|
    ensures var fed := Feed(codec, shutdown, buffered, chunks[i..]);
            if chunks[i] == [] then fed == Drained([], buffered, Waiting)
            else var d := Drain(codec, shutdown, buffered + chunks[i]);
                 fed == if d.verdict != Waiting then d
                     else Prepend(d.log, Feed(codec, shutdown, d.rest, chunks[i + 1..]))
  {
    assert chunks[i..][0] == chunks[i] && chunks[i..][1..] == chunks[i + 1..];
  }

  /** Handling `fed` from the log `was` on comes to the same as handling `now` from
      the log `log` on. */
  predicate Continues<M(==)>(fed: Drained<M>, was: seq<M>, now: Drained<M>, log: seq<M>) {
    fed.rest == now.rest && fed.verdict == now.verdict && was + fed.log == log + now.log
  }

  lemma ContinuesBehind<M>(fed: Drained<M>, was: seq<M>, first: seq<M>, now: Drained<M>, log: seq<M>)
    requires Continues(fed, was, Prepend(first, now), log)
    ensures Continues(fed, was, now, log + first)
  {
    assert log + (first + now.log) == (log + first) + now.log;
  }

  // ------------------------------------------------------ the command loop

  /** The state `run_until_disconnect` keeps across chunks, with the handled
      commands standing for what `handle_command` does to the overlay. */
  class CommandLoop<M> {
    const codec: Codec<M>
    const shutdown: M -> bool
    var buf: Bytes
    var log: seq<M>

    constructor (codec: Codec<M>, shutdown: M -> bool)
      ensures this.codec == codec && this.shutdown == shutdown && buf == [] && log == []
    {
      this.codec, this.shutdown := codec, shutdown;
      buf, log := [], [];
    }

    /** `encode_named` as it fills its output vector. */
    static method Encode(codec: Codec<M>, message: M) returns (r: Result<Bytes>)
      ensures r == EncodeNamed(codec, message)
    {
      var body := codec.encode(message);
      if body.None? {
        return Err(EncodeFailed);
      }
      if |body.value| > MAX_FRAME_BYTES {
        return Err(FrameTooLarge(|body.value|));
      }
      var out: Bytes := [];
      out := out + ToBigEndian(|body.value|);
      out := out + body.value;
      assert out == Framed(body.value);
      return Ok(out);
    }

    method DrainCommands() returns (verdict: Verdict)
      modifies this
      ensures var d := Drain(codec, shutdown, old(buf));
              buf == d.rest && log == old(log) + d.log && verdict == d.verdict
    {
      ghost var drained := Drain(codec, shutdown, buf);
      while true
        invariant |buf| <= |old(buf)|
        invariant Continues(drained, old(log), Drain(codec, shutdown, buf), log)
        decreases |buf|
      {
        var decoded := DecodeNamed(codec, buf);
        if decoded.Ok? {
          var (command, used) := decoded.value;
          DrainUnfolds(codec, shutdown, buf);
          ghost var before := log;
          buf := buf[used..];
          log := log + [command];
          if shutdown(command) {
            return Stopped;
          }
          ContinuesBehind(drained, old(log), [command], Drain(codec, shutdown, buf), before);
        } else if decoded.error.Truncated? {
          return Waiting;
        } else {
          var need := FrameLen(buf);
          if need.Ok? {
            buf := buf[need.value..];
          } else if need.error.Truncated? {
            return Waiting;
          } else {
            return Fatal(need.error);
          }
        }
      }
    }

    /** The read arm of `run_until_disconnect`, over the reads a peer delivers. */
    method Run(chunks: seq<Bytes>) returns (verdict: Verdict)
      modifies this
      ensures var fed := Feed(codec, shutdown, old(buf), chunks);
              buf == fed.rest && log == old(log) + fed.log && verdict == fed.verdict
    {
      var i := 0;
      ghost var fed := Feed(codec, shutdown, buf, chunks);
      while i < |chunks|
        invariant 0 <= i <= |chunks|
        invariant Continues(fed, old(log), Feed(codec, shutdown, buf, chunks[i..]), log)
      {
        FeedUnfolds(codec, shutdown, buf, chunks, i);
        if chunks[i] == [] {
          return Waiting;
        }
        buf := buf + chunks[i];
        ghost var d, before := Drain(codec, shutdown, buf), log;
        verdict := DrainCommands();
        if verdict != Waiting {
          return;
        }
        ContinuesBehind(fed, old(log), d.log, Feed(codec, shutdown, buf, chunks[i + 1..]), before);
        i := i + 1;
      }
      return Waiting;
    }
  }
}
