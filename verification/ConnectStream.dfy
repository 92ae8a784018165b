/** The Connect server-stream decoder: a byte buffer from which whole enveloped messages are
    sliced, whatever way the network cut the bytes into chunks. The framing is the
    Enveloped-Message form of the Connect Protocol Reference, section "Streaming RPCs". */
module ConnectStream {
  import opened Common

  const HEADER_LEN: nat := 5
  const LENGTH_LIMIT: nat := 0x1_0000_0000

  /** What the JSON parser makes of a payload. `Undecodable` is a payload that is not text in the
      encoding the parser detects: the parser raises an error that is not a JSON error for it. For
      an object, `update` is its "update" member when that is an object and `error` its "error"
      member when that is truthy. */
  datatype Parsed<+J> =
    | Undecodable
    | Malformed
    | NotAnObject
    | Object(value: J, update: Option<J>, error: Option<J>)

  type Parser<J> = seq<byte> -> Parsed<J>

  /** How a stream ends. `Open` means that the bytes so far ask for more; a stream that is closed
      there ends like a clean one. */
  datatype Ending<+J> =
    | Open
    | CleanTrailer
    | TrailerError(error: J)
    | CompressedFrame(flag: byte)
    | MalformedJson
    | UndecodableText
    | HttpStatus(code: int)

  datatype Frame = Frame(flag: byte, payload: seq<byte>)

  datatype Decoded<+J> = Decoded(updates: seq<J>, ending: Ending<J>, rest: seq<byte>)

  // ----- the length field -----

  function BigEndian(n: nat): (bs: seq<byte>)
    requires n < LENGTH_LIMIT
    ensures |bs| == 4
    ensures bs[0] as int * 0x100_0000 + bs[1] as int * 0x1_0000 + bs[2] as int * 0x100 + bs[3] as int == n
  {
    assert n / 0x100_0000 == n / 0x1_0000 / 256 && n / 0x1_0000 == n / 0x100 / 256;
    [n / 0x100_0000, n / 0x1_0000 % 256, n / 0x100 % 256, n % 256]
  }

  function FromBigEndian(bs: seq<byte>): (n: nat)
    requires |bs| == 4
    ensures n < LENGTH_LIMIT
  {
    var b0: int, b1: int, b2: int, b3: int := bs[0], bs[1], bs[2], bs[3];
    ((b0 * 256 + b1) * 256 + b2) * 256 + b3
  }

  lemma LengthRoundTrip(n: nat)
    requires n < LENGTH_LIMIT
    ensures FromBigEndian(BigEndian(n)) == n
  {
    var a, b := n / 0x100, n / 0x1_0000;
    assert b == a / 256 && n / 0x100_0000 == b / 256;
  }

  lemma LengthBytesRoundTrip(bs: seq<byte>)
    requires |bs| == 4
    ensures BigEndian(FromBigEndian(bs)) == bs
  {
    var b0: int, b1: int, b2: int := bs[0], bs[1], bs[2];
    var b := b0 * 256 + b1;
    var a := b * 256 + b2;
    var n := FromBigEndian(bs);
    assert n / 0x100 == a && n % 256 == bs[3];
    assert n / 0x1_0000 == a / 256 == b && a % 256 == bs[2];
    assert n / 0x100_0000 == b / 256 == bs[0] && b % 256 == bs[1];
  }

  // ----- frames on the wire -----

  function EncodeFrame(f: Frame): (bs: seq<byte>)
    requires |f.payload| < LENGTH_LIMIT
  {
    [f.flag] + BigEndian(|f.payload|) + f.payload
  }

  /** One request message: an uncompressed frame, or None where packing the length fails. */
  function EncodeConnectEnvelope(raw: seq<byte>): (message: Option<seq<byte>>)
    ensures message.None? <==> |raw| >= LENGTH_LIMIT
    ensures message.Some? ==> |message.value| == HEADER_LEN + |raw| && message.value[0] == 0 && message.value[HEADER_LEN..] == raw
  {
    if |raw| < LENGTH_LIMIT then Some(EncodeFrame(Frame(0, raw))) else None
  }

  function DeclaredLength(buffer: seq<byte>): nat
    requires |buffer| >= HEADER_LEN
  {
    FromBigEndian(buffer[1..HEADER_LEN])
  }

  predicate HasFrame(buffer: seq<byte>) {
    |buffer| >= HEADER_LEN && |buffer| >= HEADER_LEN + DeclaredLength(buffer)
  }

  function FirstFrame(buffer: seq<byte>): Frame
    requires HasFrame(buffer)
  {
    Frame(buffer[0], buffer[HEADER_LEN..HEADER_LEN + DeclaredLength(buffer)])
  }

  function AfterFrame(buffer: seq<byte>): (rest: seq<byte>)
    requires HasFrame(buffer)
    ensures |rest| + HEADER_LEN <= |buffer|
  {
    buffer[HEADER_LEN + DeclaredLength(buffer)..]
  }

  predicate Compressed(flag: byte) { flag % 2 == 1 }

  predicate Trailer(flag: byte) { flag / 2 % 2 == 1 }

  function TrailerEnding<J>(payload: seq<byte>, parse: Parser<J>): Ending<J> {
    if payload == [] then CleanTrailer
    else
      match parse(payload)
      case Undecodable => UndecodableText
      case Object(_, _, Some(e)) => TrailerError(e)
      case _ => CleanTrailer
  }

  /** What one frame updates and how it leaves the stream. */
  function Interpret<J>(f: Frame, parse: Parser<J>): (r: (seq<J>, Ending<J>))
    ensures r.0 != [] <==> f.flag % 4 == 0 && parse(f.payload).Object?
    ensures r.1.Open? <==> f.flag % 4 == 0 && (parse(f.payload).NotAnObject? || parse(f.payload).Object?)
    ensures |r.0| <= 1 && (r.0 != [] ==> r.1.Open?)
  {
    if Compressed(f.flag) then ([], CompressedFrame(f.flag))
    else if Trailer(f.flag) then ([], TrailerEnding(f.payload, parse))
    else
      match parse(f.payload)
      case Undecodable => ([], UndecodableText)
      case Malformed => ([], MalformedJson)
      case NotAnObject => ([], Open)
      case Object(v, u, _) => ([u.GetOr(v)], Open)
  }

  function Prepend<J>(us: seq<J>, d: Decoded<J>): Decoded<J> {
    d.(updates := us + d.updates)
  }

  /** The decoder's result on bytes that arrive in one piece. */
  function Decode<J>(buffer: seq<byte>, parse: Parser<J>): Decoded<J>
    decreases |buffer|
  {
    if !HasFrame(buffer) then Decoded([], Open, buffer)
    else
      var (ys, ending) := Interpret(FirstFrame(buffer), parse);
      var rest := AfterFrame(buffer);
      if ending.Open? then
        Prepend(ys, Decode(rest, parse))
      else Decoded(ys, ending, rest)
  }

  function Flatten(chunks: seq<seq<byte>>): seq<byte> {
    if chunks == [] then [] else chunks[0] + Flatten(chunks[1..])
  }

  lemma {:induction false} FlattenAppend(chunks: seq<seq<byte>>, chunk: seq<byte>)
    ensures Flatten(chunks + [chunk]) == Flatten(chunks) + chunk
  {
    if chunks == [] {
      assert [chunk][1..] == [];
    } else {
      FlattenAppend(chunks[1..], chunk);
      assert (chunks + [chunk])[1..] == chunks[1..] + [chunk];
    }
  }

  lemma {:induction false} FlattenSplit(chunks: seq<seq<byte>>, i: nat)
    requires i <= |chunks|
    ensures Flatten(chunks) == Flatten(chunks[..i]) + Flatten(chunks[i..])
  {
    if i == 0 {
      assert chunks[i..] == chunks;
    } else {
      FlattenSplit(chunks[1..], i - 1);
      assert chunks[..i][1..] == chunks[1..][..i - 1];
    }
  }

  lemma FirstFrameStays(a: seq<byte>, b: seq<byte>)
    requires HasFrame(a)
    ensures HasFrame(a + b) && FirstFrame(a + b) == FirstFrame(a) && AfterFrame(a + b) == AfterFrame(a) + b
  {
    assert (a + b)[1..HEADER_LEN] == a[1..HEADER_LEN];
  }

  /** What further bytes make of a decoder's result: an ended stream ignores them. */
  function Resume<J>(d: Decoded<J>, more: seq<byte>, parse: Parser<J>): Decoded<J> {
    if d.ending.Open? then Prepend(d.updates, Decode(d.rest + more, parse))
    else d.(rest := d.rest + more)
  }

  lemma ResumePrepended<J>(us: seq<J>, d: Decoded<J>, more: seq<byte>, parse: Parser<J>)
    ensures Resume(Prepend(us, d), more, parse) == Prepend(us, Resume(d, more, parse))
  {
    var e := Decode(d.rest + more, parse);
    assert (us + d.updates) + e.updates == us + (d.updates + e.updates);
  }

  /** Decoding bytes in two pieces is decoding them at once. */
  lemma {:induction false} DecodeAppend<J>(a: seq<byte>, b: seq<byte>, parse: Parser<J>)
    ensures Decode(a + b, parse) == Resume(Decode(a, parse), b, parse)
    decreases |a|
  {
    if !HasFrame(a) {
      assert Decode(a, parse) == Decoded([], Open, a);
      var e := Decode(a + b, parse);
      assert [] + e.updates == e.updates;
    } else {
      FirstFrameStays(a, b);
      var (us, ending) := Interpret(FirstFrame(a), parse);
      if ending.Open? {
        DecodeAppend(AfterFrame(a), b, parse);
        ResumePrepended(us, Decode(AfterFrame(a), parse), b, parse);
      }
    }
  }

  lemma PrependTwice<J>(us: seq<J>, vs: seq<J>, d: Decoded<J>)
    ensures Prepend(us, Prepend(vs, d)) == Prepend(us + vs, d)
  {
    assert us + (vs + d.updates) == (us + vs) + d.updates;
  }

  // ----- the wire form and the decoder are inverse -----

  predicate Sendable(fs: seq<Frame>) {
    forall i :: 0 <= i < |fs| ==> |fs[i].payload| < LENGTH_LIMIT
  }

  function Wire(fs: seq<Frame>): seq<byte>
    requires Sendable(fs)
  {
    if fs == [] then [] else EncodeFrame(fs[0]) + Wire(fs[1..])
  }

  /** What a receiver should make of a list of frames: each in turn, up to the first that ends. */
  function InterpretAll<J>(fs: seq<Frame>, parse: Parser<J>): (seq<J>, Ending<J>) {
    if fs == [] then ([], Open)
    else
      var (ys, ending) := Interpret(fs[0], parse);
      if ending.Open? then
        var (more, last) := InterpretAll(fs[1..], parse);
        (ys + more, last)
      else (ys, ending)
  }

  /** Every byte string is, in one way only, a list of whole frames and an incomplete tail. */
  lemma {:induction false} Framing(bytes: seq<byte>) returns (fs: seq<Frame>, tail: seq<byte>)
    ensures Sendable(fs) && bytes == Wire(fs) + tail && !HasFrame(tail)
    decreases |bytes|
  {
    if !HasFrame(bytes) {
      fs, tail := [], bytes;
    } else {
      var f := FirstFrame(bytes);
      LengthBytesRoundTrip(bytes[1..HEADER_LEN]);
      assert bytes[1..HEADER_LEN] == BigEndian(|f.payload|);
      assert bytes == EncodeFrame(f) + AfterFrame(bytes);
      var gs;
      gs, tail := Framing(AfterFrame(bytes));
      fs := [f] + gs;
      assert fs[1..] == gs;
      assert EncodeFrame(f) + (Wire(gs) + tail) == (EncodeFrame(f) + Wire(gs)) + tail;
    }
  }

  lemma FrameFirst(f: Frame, more: seq<byte>)
    requires |f.payload| < LENGTH_LIMIT
    ensures var bytes := EncodeFrame(f) + more;
            HasFrame(bytes) && FirstFrame(bytes) == f && AfterFrame(bytes) == more
  {
    var bytes := EncodeFrame(f) + more;
    assert bytes[1..HEADER_LEN] == BigEndian(|f.payload|);
    LengthRoundTrip(|f.payload|);
  }

  lemma WireFirst(fs: seq<Frame>, tail: seq<byte>)
    requires Sendable(fs) && fs != []
    ensures var bytes := Wire(fs) + tail;
            HasFrame(bytes) && FirstFrame(bytes) == fs[0] && AfterFrame(bytes) == Wire(fs[1..]) + tail
  {
    hide HasFrame, FirstFrame, AfterFrame, EncodeFrame;
    assert Wire(fs) + tail == EncodeFrame(fs[0]) + (Wire(fs[1..]) + tail);
    FrameFirst(fs[0], Wire(fs[1..]) + tail);
  }

  lemma {:induction false} FramingUnique(fs: seq<Frame>, t: seq<byte>, gs: seq<Frame>, u: seq<byte>)
    requires Sendable(fs) && Sendable(gs) && !HasFrame(t) && !HasFrame(u)
    requires Wire(fs) + t == Wire(gs) + u
    ensures fs == gs && t == u
  {
    hide HasFrame, EncodeFrame;
    if fs != [] {
      WireFirst(fs, t);
    }
    if gs != [] {
      WireFirst(gs, u);
    }
    if fs == [] || gs == [] {
      assert [] + t == t && [] + u == u;
    } else {
      FramingUnique(fs[1..], t, gs[1..], u);
      assert fs == [fs[0]] + fs[1..] && gs == [gs[0]] + gs[1..];
    }
  }

  /** Frames written one after another are read back one after another, up to the one that ends. */
  lemma {:induction false} DecodesFrames<J>(fs: seq<Frame>, tail: seq<byte>, parse: Parser<J>)
    requires Sendable(fs) && !HasFrame(tail)
    ensures var d := Decode(Wire(fs) + tail, parse);
            (d.updates, d.ending) == InterpretAll(fs, parse)
    ensures Decode(Wire(fs) + tail, parse).ending.Open? ==> Decode(Wire(fs) + tail, parse).rest == tail
  {
    if fs == [] {
      assert Wire(fs) + tail == tail;
    } else {
      WireFirst(fs, tail);
      DecodesFrames(fs[1..], tail, parse);
    }
  }

  // ----- what a list of frames means -----

  /** A frame that ends the stream: a compressed one, a trailer, or a data frame that is not JSON. */
  predicate Closes<J>(f: Frame, parse: Parser<J>) {
    f.flag % 2 == 1 || f.flag / 2 % 2 == 1 || parse(f.payload).Malformed? || parse(f.payload).Undecodable?
  }

  /** How such a frame ends the stream. A trailer is an error only if its payload is an object with an
      error in it. */
  ghost predicate ClosedBy<J>(f: Frame, ending: Ending<J>, parse: Parser<J>) {
    if f.flag % 2 == 1 then ending == CompressedFrame(f.flag)
    else if f.flag / 2 % 2 == 1 then
      if f.payload == [] then ending == CleanTrailer
      else if parse(f.payload).Object? && parse(f.payload).error.Some? then ending == TrailerError(parse(f.payload).error.value)
      else if parse(f.payload).Undecodable? then ending == UndecodableText
      else ending == CleanTrailer
    else if parse(f.payload).Malformed? then ending == MalformedJson
    else ending == UndecodableText
  }

  /** The objects among the frames' payloads, in order, each out of its "update" envelope where it has one. */
  function ObjectsIn<J>(fs: seq<Frame>, parse: Parser<J>): seq<J> {
    if fs == [] then []
    else
      (match parse(fs[0].payload)
       case Object(v, u, _) => [if u.Some? then u.value else v]
       case _ => [])
      + ObjectsIn(fs[1..], parse)
  }

  /** The updates are the objects in front of the first frame that ends the stream, and that frame decides
      how it ends; without one the stream stays open. */
  ghost predicate FirstClosingFrameDecides<J>(fs: seq<Frame>, updates: seq<J>, ending: Ending<J>, parse: Parser<J>) {
    exists n :: 0 <= n <= |fs| && DecidedAt(fs, n, updates, ending, parse)
  }

  ghost predicate DecidedAt<J>(fs: seq<Frame>, n: nat, updates: seq<J>, ending: Ending<J>, parse: Parser<J>)
    requires n <= |fs|
  {
    && (forall i :: 0 <= i < n ==> !Closes(fs[i], parse))
    && updates == ObjectsIn(fs[..n], parse)
    && (if n == |fs| then ending == Open else Closes(fs[n], parse) && ClosedBy(fs[n], ending, parse))
  }

  lemma {:induction false} InterpretedInOrder<J>(fs: seq<Frame>, parse: Parser<J>) returns (n: nat)
    ensures n <= |fs| && DecidedAt(fs, n, InterpretAll(fs, parse).0, InterpretAll(fs, parse).1, parse)
  {
    n := 0;
    if fs != [] {
      var (us, ending) := Interpret(fs[0], parse);
      if ending.Open? {
        var m := InterpretedInOrder(fs[1..], parse);
        n := m + 1;
        assert fs[..n][0] == fs[0] && fs[..n][1..] == fs[1..][..m];
        assert forall i :: 0 < i < |fs| ==> fs[i] == fs[1..][i - 1];
      }
    }
  }

  lemma FramesDecide<J>(bytes: seq<byte>, parse: Parser<J>)
    ensures forall fs, tail :: Sendable(fs) && !HasFrame(tail) && bytes == Wire(fs) + tail ==>
              FirstClosingFrameDecides(fs, Decode(bytes, parse).updates, Decode(bytes, parse).ending, parse)
  {
    forall fs, tail | Sendable(fs) && !HasFrame(tail) && bytes == Wire(fs) + tail
      ensures FirstClosingFrameDecides(fs, Decode(bytes, parse).updates, Decode(bytes, parse).ending, parse)
    {
      hide HasFrame, Wire, Decode, InterpretAll, DecidedAt;
      DecodesFrames(fs, tail, parse);
      var n := InterpretedInOrder(fs, parse);
    }
  }

  /** The stream client: reassembles frames from the chunks as they arrive. Its result is the
      result on the uncut bytes, so it cannot depend on how the network cut them. */
  method StreamAgentStateUpdates<J>(statusCode: int, chunks: seq<seq<byte>>, parse: Parser<J>)
    returns (updates: seq<J>, ending: Ending<J>)
    ensures statusCode >= 400 ==> updates == [] && ending == HttpStatus(statusCode)
    ensures statusCode < 400 ==>
              var whole := Decode(Flatten(chunks), parse);
              updates == whole.updates && ending == whole.ending
    ensures statusCode < 400 ==>
              forall fs, tail :: Sendable(fs) && !HasFrame(tail) && Flatten(chunks) == Wire(fs) + tail ==>
                                   FirstClosingFrameDecides(fs, updates, ending, parse)
  {
    FramesDecide(Flatten(chunks), parse);
    updates, ending := [], Open;
    if statusCode >= 400 {
      ending := HttpStatus(statusCode);
      return;
    }
    var buffer: seq<byte> := [];
    for i := 0 to |chunks|
      invariant ending == Open && !HasFrame(buffer)
      invariant Decode(Flatten(chunks[..i]), parse) == Decoded(updates, Open, buffer)
    {
      ghost var arrived := Flatten(chunks[..i + 1]);
      ghost var pending := Flatten(chunks[i + 1..]);
      FlattenSplit(chunks, i + 1);
      assert arrived == Flatten(chunks[..i]) + chunks[i] by {
        FlattenAppend(chunks[..i], chunks[i]);
        assert chunks[..i] + [chunks[i]] == chunks[..i + 1];
      }
      DecodeAppend(Flatten(chunks[..i]), chunks[i], parse);
      buffer := buffer + chunks[i];
      while HasFrame(buffer)
        invariant ending == Open
        invariant Decode(arrived, parse) == Prepend(updates, Decode(buffer, parse))
        decreases |buffer|
      {
        var frame := FirstFrame(buffer);
        buffer := AfterFrame(buffer);
        var (us, e) := Interpret(frame, parse);
        PrependTwice(updates, us, Decode(buffer, parse));
        updates := updates + us;
        if !e.Open? {
          ending := e;
          DecodeAppend(arrived, pending, parse);
          return;
        }
      }
    }
    assert chunks[..|chunks|] == chunks;
  }

  // ----- requests read back -----

  predicate ObjectPayloads<J>(payloads: seq<seq<byte>>, parse: Parser<J>) {
    forall i :: 0 <= i < |payloads| ==> |payloads[i]| < LENGTH_LIMIT && parse(payloads[i]).Object?
  }

  function Envelopes<J>(payloads: seq<seq<byte>>, parse: Parser<J>): seq<byte>
    requires ObjectPayloads(payloads, parse)
  {
    if payloads == [] then []
    else EncodeConnectEnvelope(payloads[0]).value + Envelopes(payloads[1..], parse)
  }

  /** The payloads' own objects, out of their "update" envelope where they have one. */
  function Unwrapped<J>(payloads: seq<seq<byte>>, parse: Parser<J>): seq<J>
    requires ObjectPayloads(payloads, parse)
  {
    if payloads == [] then []
    else
      var p := parse(payloads[0]);
      [p.update.GetOr(p.value)] + Unwrapped(payloads[1..], parse)
  }

  /** Object payloads, each enveloped as a request is, concatenated and cut anywhere, are read back
      as exactly that list, with nothing left over. */
  lemma {:induction false} EnvelopesRoundTrip<J>(payloads: seq<seq<byte>>, chunks: seq<seq<byte>>, parse: Parser<J>)
    requires ObjectPayloads(payloads, parse)
    requires Flatten(chunks) == Envelopes(payloads, parse)
    ensures Decode(Flatten(chunks), parse) == Decoded(Unwrapped(payloads, parse), Open, [])
    decreases |payloads|
  {
    if payloads != [] {
      var more := Envelopes(payloads[1..], parse);
      FrameFirst(Frame(0, payloads[0]), more);
      assert Flatten([more]) == more + [];
      EnvelopesRoundTrip(payloads[1..], [more], parse);
    }
  }
}
