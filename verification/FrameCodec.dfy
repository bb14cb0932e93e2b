/** Length-prefixed frames with optional compression.
    Models `crates/alloyfs-proto/src/frame.rs`. The serializer and the compressor are parameters;
    what is assumed of them is `Lawful`. */
module FrameCodec {
  import opened Common
  import opened LittleEndian

  const MAX_FRAME_LEN: nat := 1024 * 1024
  const COMPRESS_MIN: nat := 512
  const LEN_PREFIX: nat := 4

  datatype Frame<+M> = Compressed(data: Bytes) | Message(m: M)

  datatype Codec<!M> = Codec(
    ser: Frame<M> -> Bytes,
    de: Bytes -> Option<Frame<M>>,
    comp: Bytes -> Bytes,
    decomp: Bytes -> Option<Bytes>)

  /** Serializing and compressing can be undone, and compressed data starts with its original size. */
  ghost predicate Lawful<M(!new)>(c: Codec<M>) {
    && (forall f :: c.de(c.ser(f)) == Some(f))
    && (forall b :: |b| < Limit(4) ==>
          c.decomp(c.comp(b)) == Some(b) && LEN_PREFIX <= |c.comp(b)| && c.comp(b)[..LEN_PREFIX] == ToLE(|b|, LEN_PREFIX))
  }

  datatype Error = FrameTooLarge(len: nat) | Compression | Malformed

  // ---------------------------------------------------------------- encoding

  function Payload<M>(c: Codec<M>, compress: bool, f: Frame<M>): Bytes {
    var payload := c.ser(f);
    if compress && |payload| >= COMPRESS_MIN && !f.Compressed? then
      var squeezed := c.comp(payload);
      if |squeezed| < |payload| then c.ser(Compressed(squeezed)) else payload
    else payload
  }

  /** The bytes appended for one frame; `None` is the refusal of an oversized one. */
  function EncodeFrame<M>(c: Codec<M>, compress: bool, f: Frame<M>): Option<Bytes> {
    var payload := Payload(c, compress, f);
    if |payload| > MAX_FRAME_LEN then None else Some(ToLE(|payload|, LEN_PREFIX) + payload)
  }

  // ---------------------------------------------------------------- decoding

  /** One decoding attempt: wait for more bytes, a frame, or an error, with the bytes consumed. */
  datatype Step<+M> = Wait | Got(frame: Frame<M>, used: nat) | Bad(error: Error, used: nat)

  function Unwrap<M>(c: Codec<M>, payload: Bytes, used: nat): (s: Step<M>)
    ensures !s.Wait? && s.used == used
  {
    match c.de(payload)
    case None => Bad(Malformed, used)
    case Some(Message(m)) => Got(Message(m), used)
    case Some(Compressed(data)) =>
      if |data| >= LEN_PREFIX && FromLE(data[..LEN_PREFIX]) > MAX_FRAME_LEN
      then Bad(FrameTooLarge(FromLE(data[..LEN_PREFIX])), used)
      else
        match c.decomp(data)
        case None => Bad(Compression, used)
        case Some(inner) =>
          match c.de(inner)
          case None => Bad(Malformed, used)
          case Some(Compressed(_)) => Bad(Compression, used)
          case Some(Message(m)) => Got(Message(m), used)
  }

  function DecodeStep<M>(c: Codec<M>, src: Bytes): (s: Step<M>)
    ensures s.Got? ==> LEN_PREFIX <= s.used <= |src|
    ensures s.Bad? ==> s.used <= |src|
  {
    if |src| < LEN_PREFIX then Wait
    else
      var len := FromLE(src[..LEN_PREFIX]);
      if len > MAX_FRAME_LEN then Bad(FrameTooLarge(len), 0)
      else if |src| < LEN_PREFIX + len then Wait
      else Unwrap(c, src[LEN_PREFIX..LEN_PREFIX + len], LEN_PREFIX + len)
  }

  /** Everything that can be decoded from a buffer: the frames, what is left, and an error if one
      stopped it. */
  datatype Drained<+M> = Drained(frames: seq<Frame<M>>, rest: Bytes, error: Option<Error>)

  function Drain<M>(c: Codec<M>, src: Bytes): Drained<M>
    decreases |src|
  {
    match DecodeStep(c, src)
    case Wait => Drained([], src, None)
    case Bad(e, used) => Drained([], src[used..], Some(e))
    case Got(f, used) => After([f], Drain(c, src[used..]))
  }

  function After<M>(fs: seq<Frame<M>>, d: Drained<M>): Drained<M> {
    Drained(fs + d.frames, d.rest, d.error)
  }

  function Flat(chunks: seq<Bytes>): Bytes {
    if chunks == [] then [] else Flat(chunks[..|chunks| - 1]) + chunks[|chunks| - 1]
  }

  /** The receiving end of a connection. */
  class Reader<M> {
    const codec: Codec<M>
    var buf: Bytes

    constructor (codec: Codec<M>)
      ensures this.codec == codec && buf == []
    {
      this.codec := codec;
      buf := [];
    }

    /** Decode at most one frame, consuming exactly its bytes; an incomplete one stays. */
    method Decode() returns (s: Step<M>)
      modifies this
      ensures s == DecodeStep(codec, old(buf))
      ensures buf == if s.Wait? then old(buf) else old(buf)[s.used..]
    {
      if |buf| < LEN_PREFIX { return Wait; }
      var len := FromLE(buf[..LEN_PREFIX]);
      if len > MAX_FRAME_LEN { return Bad(FrameTooLarge(len), 0); }
      if |buf| < LEN_PREFIX + len { return Wait; }
      var payload := buf[LEN_PREFIX..LEN_PREFIX + len];
      buf := buf[LEN_PREFIX + len..];
      return Unwrap(codec, payload, LEN_PREFIX + len);
    }

    /** Decode until the buffer holds no complete frame. */
    method DecodeAll() returns (frames: seq<Frame<M>>, error: Option<Error>)
      modifies this
      ensures Drained(frames, buf, error) == Drain(codec, old(buf))
    {
      frames := [];
      while true
        invariant After(frames, Drain(codec, buf)) == Drain(codec, old(buf))
        decreases |buf|
      {
        ghost var before := buf;
        var s := Decode();
        match s
        case Wait => return frames, None;
        case Bad(e, _) => return frames, Some(e);
        case Got(f, _) =>
          AfterTwice(frames, [f], Drain(codec, buf));
          frames := frames + [f];
      }
    }

    /** Read a connection chunk by chunk. Where the chunks are cut makes no difference. */
    method ReadStream(chunks: seq<Bytes>) returns (frames: seq<Frame<M>>, error: Option<Error>)
      requires buf == []
      modifies this
      ensures frames == Drain(codec, Flat(chunks)).frames
      ensures error == Drain(codec, Flat(chunks)).error
      ensures error.None? ==> buf == Drain(codec, Flat(chunks)).rest
    {
      frames := [];
      for i := 0 to |chunks|
        invariant Drained(frames, buf, None) == Drain(codec, Flat(chunks[..i]))
      {
        assert chunks[..i + 1][..i] == chunks[..i];
        DrainExtends(codec, Flat(chunks[..i]), chunks[i]);
        buf := buf + chunks[i];
        var more;
        more, error := DecodeAll();
        frames := frames + more;
        if error.Some? {
          FlatSplits(chunks, i + 1);
          DrainExtends(codec, Flat(chunks[..i + 1]), Flat(chunks[i + 1..]));
          return;
        }
      }
      assert chunks[..|chunks|] == chunks;
      error := None;
    }
  }

  lemma AfterTwice<M>(a: seq<Frame<M>>, b: seq<Frame<M>>, d: Drained<M>)
    ensures After(a + b, d) == After(a, After(b, d))
  {
    assert a + b + d.frames == a + (b + d.frames);
  }

  lemma {:induction false} FlatSplits(chunks: seq<Bytes>, i: nat)
    requires i <= |chunks|
    ensures Flat(chunks) == Flat(chunks[..i]) + Flat(chunks[i..])
    decreases |chunks|
  {
    if i == |chunks| {
      assert chunks[..i] == chunks;
    } else {
      var init := chunks[..|chunks| - 1];
      FlatSplits(init, i);
      assert init[..i] == chunks[..i] && init[i..] == chunks[i..][..|chunks| - i - 1];
    }
  }

  // -------------------------------------------------------------- properties

  /** More bytes never change a decision already made. */
  lemma StepExtends<M>(c: Codec<M>, a: Bytes, b: Bytes)
    requires !DecodeStep(c, a).Wait?
    ensures DecodeStep(c, a + b) == DecodeStep(c, a)
  {
    assert (a + b)[..LEN_PREFIX] == a[..LEN_PREFIX];
    var len := FromLE(a[..LEN_PREFIX]);
    if len <= MAX_FRAME_LEN {
      assert (a + b)[LEN_PREFIX..LEN_PREFIX + len] == a[LEN_PREFIX..LEN_PREFIX + len];
    }
  }

  /** Decoding what has arrived and then the rest is decoding everything at once; an error is final. */
  lemma {:induction false} DrainExtends<M>(c: Codec<M>, a: Bytes, b: Bytes)
    ensures var first := Drain(c, a); var whole := Drain(c, a + b);
            if first.error.None? then whole == After(first.frames, Drain(c, first.rest + b))
            else whole.frames == first.frames && whole.error == first.error
    decreases |a|
  {
    match DecodeStep(c, a)
    case Wait => assert [] + Drain(c, a + b).frames == Drain(c, a + b).frames;
    case Bad(_, _) => StepExtends(c, a, b);
    case Got(f, used) =>
      StepExtends(c, a, b);
      assert (a + b)[used..] == a[used..] + b;
      DrainExtends(c, a[used..], b);
      var first := Drain(c, a[used..]);
      AfterTwice([f], first.frames, Drain(c, first.rest + b));
  }

  lemma PrefixReadsBack(payload: Bytes, rest: Bytes)
    requires |payload| <= MAX_FRAME_LEN
    ensures var src := ToLE(|payload|, LEN_PREFIX) + payload + rest;
            FromLE(src[..LEN_PREFIX]) == |payload| && src[LEN_PREFIX..LEN_PREFIX + |payload|] == payload
  {
    Widths();
    FromToLE(|payload|, LEN_PREFIX);
    var src := ToLE(|payload|, LEN_PREFIX) + payload + rest;
    assert src[..LEN_PREFIX] == ToLE(|payload|, LEN_PREFIX);
  }

  /** A message that was encoded is decoded back, consuming its bytes and no more, exactly when its
      plain form is within the frame limit: one that only compression made small enough is refused. */
  lemma RoundTripExactly<M(!new)>(c: Codec<M>, compress: bool, m: M, rest: Bytes)
    requires Lawful(c) && EncodeFrame(c, compress, Message(m)).Some? && |c.ser(Message(m))| < Limit(LEN_PREFIX)
    ensures var wire := EncodeFrame(c, compress, Message(m)).value;
            DecodeStep(c, wire + rest) == Got(Message(m), |wire|) <==> |c.ser(Message(m))| <= MAX_FRAME_LEN
  {
    var f := Message(m);
    var payload := Payload(c, compress, f);
    PrefixReadsBack(payload, rest);
    var plain := c.ser(f);
    if payload != plain {
      assert payload == c.ser(Compressed(c.comp(plain)));
      FromToLE(|plain|, LEN_PREFIX);
    }
    assert c.de(plain) == Some(f);
  }

  /** Without compression, or below 512 bytes, a frame is its size in four bytes and its plain form; it
      is refused exactly when that form is longer than one mebibyte. */
  lemma PlainFrame<M>(c: Codec<M>, compress: bool, f: Frame<M>)
    requires !compress || |c.ser(f)| < 512
    ensures EncodeFrame(c, compress, f) == if |c.ser(f)| > 1048576 then None else Some(ToLE(|c.ser(f)|, 4) + c.ser(f))
  {
  }

  /** From 512 bytes on a message is compressed and wrapped if that makes it smaller. */
  lemma SqueezedFrame<M>(c: Codec<M>, m: M)
    requires |c.ser(Message(m))| >= 512
    ensures var plain := c.ser(Message(m));
            Payload(c, true, Message(m)) ==
            if |c.comp(plain)| < |plain| then c.ser(Compressed(c.comp(plain))) else plain
  {
  }

  /** An incomplete frame is left alone. */
  lemma PrefixWaits<M(!new)>(c: Codec<M>, compress: bool, f: Frame<M>, n: nat)
    requires EncodeFrame(c, compress, f).Some? && n < |EncodeFrame(c, compress, f).value|
    ensures DecodeStep(c, EncodeFrame(c, compress, f).value[..n]) == Wait
  {
    var payload := Payload(c, compress, f);
    var wire := EncodeFrame(c, compress, f).value;
    PrefixReadsBack(payload, []);
    if n >= LEN_PREFIX {
      assert wire[..n][..LEN_PREFIX] == (wire + [])[..LEN_PREFIX];
    }
  }

  /** The messages of a stream can all be sent and are within the plain limit. */
  ghost predicate Sendable<M>(c: Codec<M>, compress: bool, ms: seq<M>) {
    forall m | m in ms ::
      EncodeFrame(c, compress, Message(m)).Some? && |c.ser(Message(m))| <= MAX_FRAME_LEN
  }

  function EncodeAll<M>(c: Codec<M>, compress: bool, ms: seq<M>): Bytes {
    if ms == [] then []
    else EncodeOr(c, compress, ms[0]) + EncodeAll(c, compress, ms[1..])
  }

  function EncodeOr<M>(c: Codec<M>, compress: bool, m: M): Bytes {
    var e := EncodeFrame(c, compress, Message(m));
    if e.Some? then e.value else []
  }

  function Messages<M>(ms: seq<M>): (fs: seq<Frame<M>>)
    ensures |fs| == |ms| && forall i | 0 <= i < |ms| :: fs[i] == Message(ms[i])
  {
    seq(|ms|, i requires 0 <= i < |ms| => Message(ms[i]))
  }

  /** A whole stream decodes to the messages that were sent, in order, with nothing left over. With
      `ReadStream` this holds however the bytes are cut into chunks. */
  lemma {:induction false} StreamRoundTrip<M(!new)>(c: Codec<M>, compress: bool, ms: seq<M>)
    requires Lawful(c) && Sendable(c, compress, ms)
    ensures Drain(c, EncodeAll(c, compress, ms)) == Drained(Messages(ms), [], None)
  {
    if ms != [] {
      var wire, rest := EncodeFrame(c, compress, Message(ms[0])).value, EncodeAll(c, compress, ms[1..]);
      Widths();
      RoundTripExactly(c, compress, ms[0], rest);
      assert (wire + rest)[|wire|..] == rest;
      StreamRoundTrip(c, compress, ms[1..]);
      assert [Message(ms[0])] + Messages(ms[1..]) == Messages(ms);
    }
  }

  /** A connection carrying encoded messages, cut into chunks anywhere, is read as those messages, in
      order, with no error and nothing left in the buffer. */
  method ReadMessages<M(!new)>(r: Reader<M>, chunks: seq<Bytes>, ghost compress: bool, ghost ms: seq<M>)
    returns (frames: seq<Frame<M>>, error: Option<Error>)
    requires r.buf == [] && Lawful(r.codec) && Sendable(r.codec, compress, ms)
    requires Flat(chunks) == EncodeAll(r.codec, compress, ms)
    modifies r
    ensures frames == Messages(ms) && error.None? && r.buf == []
  {
    StreamRoundTrip(r.codec, compress, ms);
    frames, error := r.ReadStream(chunks);
  }

  // ------------------------------------------------------- a lawful codec

  function TagSer(f: Frame<Bytes>): Bytes {
    match f
    case Compressed(data) => [1] + data
    case Message(m) => [0] + m
  }

  function TagDe(b: Bytes): Option<Frame<Bytes>> {
    if b == [] || b[0] > 1 then None
    else if b[0] == 1 then Some(Compressed(b[1..]))
    else Some(Message(b[1..]))
  }

  function StoreComp(b: Bytes): Bytes {
    ToLE(|b|, LEN_PREFIX) + b
  }

  function StoreDecomp(b: Bytes): Option<Bytes> {
    if |b| < LEN_PREFIX then None else Some(b[LEN_PREFIX..])
  }

  /** What is asked of a codec can be met: one tag byte, and data stored behind its size. */
  lemma LawfulExists()
    ensures Lawful(Codec(TagSer, TagDe, StoreComp, StoreDecomp))
  {
    forall f ensures TagDe(TagSer(f)) == Some(f) {
      match f
      case Compressed(data) => assert ([1] + data)[1..] == data;
      case Message(m) => assert ([0] + m)[1..] == m;
    }
    forall b: Bytes
      ensures StoreDecomp(StoreComp(b)) == Some(b) && StoreComp(b)[..LEN_PREFIX] == ToLE(|b|, LEN_PREFIX)
    {
      assert StoreComp(b)[LEN_PREFIX..] == b;
    }
  }
}
