/** The zerowire envelope: `ZW`, version, channel, 32-bit length, payload. Rust and Kotlin codecs. */
module Envelopes {
  import opened Bytes
  import opened Streams

  const MAGIC: bytes := [0x5A, 0x57]
  const PROTOCOL_VERSION: byte := 1
  const HEADER_LEN: nat := 8
  const MAX_PAYLOAD: nat := 0x10_0000

  datatype Channel = Control | Usbip | Hid | Keepalive

  function ChannelByte(c: Channel): byte {
    match c
    case Control => 0x01
    case Usbip => 0x02
    case Hid => 0x03
    case Keepalive => 0x7F
  }

  function ChannelFromByte(v: byte): (c: Option<Channel>)
    ensures c.Some? ==> ChannelByte(c.value) == v
    ensures c.None? ==> forall d: Channel :: ChannelByte(d) != v
  {
    match v
    case 0x01 => Some(Control)
    case 0x02 => Some(Usbip)
    case 0x03 => Some(Hid)
    case 0x7F => Some(Keepalive)
    case _ => None
  }

  datatype Envelope = Envelope(channel: Channel, payload: bytes)

  datatype EnvelopeError =
    | BadMagic(got: bytes)
    | BadVersion(version: byte)
    | UnknownChannel(value: byte)
    | TooLarge(len: nat)

  predicate Fits(e: Envelope) {
    |e.payload| <= MAX_PAYLOAD
  }

  /** The layout itself, for every payload whose length fits the 32-bit field. */
  function Frame(e: Envelope): (b: bytes)
    requires |e.payload| < TWO32
    ensures |b| == HEADER_LEN + |e.payload|
  {
    MAGIC + [PROTOCOL_VERSION, ChannelByte(e.channel)] + Be32(|e.payload|) + e.payload
  }

  function Encode(e: Envelope): Result<bytes, EnvelopeError> {
    if !Fits(e) then Err(TooLarge(|e.payload|)) else Ok(Frame(e))
  }

  datatype Verdict = Incomplete | Parsed(env: Envelope, consumed: nat) | Rejected(error: EnvelopeError)

  function Parse(buf: bytes): (v: Verdict)
    ensures v.Parsed? ==> HEADER_LEN <= v.consumed <= |buf|
    ensures v.Parsed? ==> v.consumed == HEADER_LEN + |v.env.payload| && Fits(v.env)
  {
    if |buf| < HEADER_LEN then Incomplete
    else if buf[0..2] != MAGIC then Rejected(BadMagic(buf[0..2]))
    else if buf[2] != PROTOCOL_VERSION then Rejected(BadVersion(buf[2]))
    else
      var channel := ChannelFromByte(buf[3]);
      if channel.None? then Rejected(UnknownChannel(buf[3]))
      else
        var len := FromBe32(buf[4], buf[5], buf[6], buf[7]);
        if len > MAX_PAYLOAD then Rejected(TooLarge(len))
        else
          var total := HEADER_LEN + len;
          if |buf| < total then Incomplete
          else Parsed(Envelope(channel.value, buf[HEADER_LEN..total]), total)
  }

  /** `encode_into`: appends to the caller's vector, or refuses and leaves it alone. */
  method EncodeInto(e: Envelope, out: ByteSink) returns (r: Result<nat, EnvelopeError>)
    modifies out
    ensures Fits(e) <==> r.Ok?
    ensures r.Ok? ==> out.data == old(out.data) + Frame(e) && r.value == |Frame(e)|
    ensures r.Err? ==> out.data == old(out.data) && r.error == TooLarge(|e.payload|)
  {
    if |e.payload| > MAX_PAYLOAD {
      return Err(TooLarge(|e.payload|));
    }
    var start := |out.data|;
    out.Write(MAGIC);
    out.Write([PROTOCOL_VERSION]);
    out.Write([ChannelByte(e.channel)]);
    out.Write(Be32(|e.payload|));
    out.Write(e.payload);
    assert out.data == old(out.data) + Frame(e);
    return Ok(|out.data| - start);
  }

  // Verdicts of `Parse`

  lemma HeaderFields(e: Envelope, tail: bytes)
    requires |e.payload| < TWO32
    ensures var b := Frame(e) + tail;
            && b[0..2] == MAGIC && b[2] == PROTOCOL_VERSION && b[3] == ChannelByte(e.channel)
            && FromBe32(b[4], b[5], b[6], b[7]) == |e.payload|
            && b[HEADER_LEN..HEADER_LEN + |e.payload|] == e.payload
            && b[HEADER_LEN + |e.payload|..] == tail
  {
    Be32RoundTrip(|e.payload|);
    var b := Frame(e) + tail;
    assert b[4..8] == Be32(|e.payload|);
    assert b[4] == b[4..8][0] && b[5] == b[4..8][1] && b[6] == b[4..8][2] && b[7] == b[4..8][3];
  }

  /** A frame delimits itself, whatever its size and whatever follows. */
  lemma FrameCancel(e: Envelope, s: bytes, f: Envelope, t: bytes)
    requires |e.payload| < TWO32 && |f.payload| < TWO32
    requires Frame(e) + s == Frame(f) + t
    ensures e == f && s == t
  {
    hide Frame;
    HeaderFields(e, s);
    HeaderFields(f, t);
    SameChannel(e.channel, f.channel);
  }

  lemma SameChannel(c: Channel, d: Channel)
    ensures ChannelByte(c) == ChannelByte(d) <==> c == d
  {
  }

  /** The first field that is wrong decides the error; a good header waits for its payload. */
  lemma ParseVerdicts(buf: bytes)
    ensures |buf| < 8 ==> Parse(buf) == Incomplete
    ensures |buf| >= 8 ==>
              var magic, version, channel := buf[0] == 0x5A && buf[1] == 0x57, buf[2] == 1, buf[3] in {1, 2, 3, 0x7F};
              var len := FromBe32(buf[4], buf[5], buf[6], buf[7]);
              && (Parse(buf) == Rejected(BadMagic(buf[0..2])) <==> !magic)
              && (Parse(buf) == Rejected(BadVersion(buf[2])) <==> magic && !version)
              && (Parse(buf) == Rejected(UnknownChannel(buf[3])) <==> magic && version && !channel)
              && (Parse(buf) == Rejected(TooLarge(len)) <==> magic && version && channel && len > 0x10_0000)
              && (Parse(buf) == Incomplete <==> magic && version && channel && |buf| - 8 < len <= 0x10_0000)
  {
    if |buf| >= 8 {
      assert buf[0..2] == [buf[0], buf[1]];
    }
  }

  /** One frame, byte by byte. */
  lemma FrameExample()
    ensures Frame(Envelope(Hid, [0xAA, 0xBB])) == [0x5A, 0x57, 0x01, 0x03, 0x00, 0x00, 0x00, 0x02, 0xAA, 0xBB]
  {
    hide Be32;
    FromBe32RoundTrip(0, 0, 0, 2);
    assert FromBe32(0, 0, 0, 2) == 2;
  }

  /** Parsing inverts encoding, whatever follows the frame. */
  lemma ParseFrame(e: Envelope, tail: bytes)
    requires Fits(e)
    ensures Parse(Frame(e) + tail) == Parsed(e, |Frame(e)|)
  {
    HeaderFields(e, tail);
  }

  /** Only canonical encodings are accepted: re-encoding gives the consumed bytes. */
  lemma ParseCanonical(buf: bytes)
    requires Parse(buf).Parsed?
    ensures Frame(Parse(buf).env) == buf[..Parse(buf).consumed]
  {
    var e, n := Parse(buf).env, Parse(buf).consumed;
    FromBe32RoundTrip(buf[4], buf[5], buf[6], buf[7]);
    assert buf[..n] == buf[0..2] + [buf[2], buf[3]] + buf[4..8] + buf[8..n];
  }

  /** A verdict, once reached, survives every further byte. */
  lemma ParseStable(buf: bytes, more: bytes)
    requires !Parse(buf).Incomplete?
    ensures Parse(buf + more) == Parse(buf)
  {
    assert (buf + more)[0..2] == buf[0..2];
    if Parse(buf).Parsed? {
      var n := Parse(buf).consumed;
      assert (buf + more)[HEADER_LEN..n] == buf[HEADER_LEN..n];
    }
  }

  /** Every proper prefix of a valid frame leaves the parser waiting. */
  lemma ProperPrefixIncomplete(e: Envelope, k: nat)
    requires Fits(e) && k < |Frame(e)|
    ensures Parse(Frame(e)[..k]) == Incomplete
  {
    var p := Frame(e)[..k];
    if !Parse(p).Incomplete? {
      assert p + Frame(e)[k..] + [] == Frame(e) + [];
      ParseStable(p, Frame(e)[k..]);
      assert p + Frame(e)[k..] == Frame(e) + [];
      ParseFrame(e, []);
    }
  }

  // Blocking reads

  datatype Recv = Starved | Malformed | Received(env: Envelope, rest: bytes)

  /** Rust `recv_envelope`: reads header and announced length first, and judges the frame afterwards. */
  function RustRecv(s: bytes): (r: Recv)
    ensures r.Received? ==> |r.rest| < |s| && Fits(r.env)
  {
    if |s| < HEADER_LEN then Starved
    else
      var total := HEADER_LEN + FromBe32(s[4], s[5], s[6], s[7]);
      if |s| < total then Starved
      else
        match Parse(s[..total])
        case Parsed(env, _) => Received(env, s[total..])
        case _ => Malformed
  }

  /** Kotlin `readEnvelope`: judges the header before it reads the payload. */
  function KotlinRead(s: bytes): Recv {
    if |s| < HEADER_LEN then Starved
    else if s[0] != MAGIC[0] || s[1] != MAGIC[1] || s[2] != PROTOCOL_VERSION then Malformed
    else
      var channel := ChannelFromByte(s[3]);
      if channel.None? then Malformed
      else
        var len := ToI32(FromBe32(s[4], s[5], s[6], s[7]));
        if len < 0 || len > 0x10_0000 then Malformed
        else if |s| - HEADER_LEN < len then Starved
        else Received(Envelope(channel.value, s[HEADER_LEN..HEADER_LEN + len]), s[HEADER_LEN + len..])
  }

  /** Both readers succeed exactly when `Parse` does, with the same envelope and the same split. */
  lemma RecvIffParse(s: bytes)
    ensures RustRecv(s).Received? <==> Parse(s).Parsed?
    ensures Parse(s).Parsed? ==> RustRecv(s) == Received(Parse(s).env, s[Parse(s).consumed..])
    ensures KotlinRead(s).Received? <==> Parse(s).Parsed?
    ensures KotlinRead(s).Received? ==> KotlinRead(s) == RustRecv(s)
  {
    if |s| >= HEADER_LEN {
      var total := HEADER_LEN + FromBe32(s[4], s[5], s[6], s[7]);
      if |s| >= total {
        assert s == s[..total] + s[total..];
        assert s[..total][0..2] == s[0..2];
        if !Parse(s[..total]).Incomplete? {
          ParseStable(s[..total], s[total..]);
        }
      }
      assert s[0..2] == [s[0], s[1]];
    }
  }

  method RecvEnvelope(input: ByteSource) returns (r: Option<Envelope>)
    modifies input
    ensures r.Some? <==> RustRecv(old(input.rest)).Received?
    ensures r.Some? ==> RustRecv(old(input.rest)) == Received(r.value, input.rest)
  {
    var header := new byte[HEADER_LEN];
    var ok := ReadFully(input, header);
    if !ok {
      return None;
    }
    ghost var s := old(input.rest);
    assert header[4] == s[4] && header[5] == s[5] && header[6] == s[6] && header[7] == s[7] by {
      assert header[..][4] == s[4] && header[..][5] == s[5] && header[..][6] == s[6] && header[..][7] == s[7];
    }
    var len := FromBe32(header[4], header[5], header[6], header[7]);
    var body := new byte[len];
    ok := ReadFully(input, body);
    if !ok {
      return None;
    }
    var full := header[..] + body[..];
    assert full == s[..HEADER_LEN + len];
    assert input.rest == s[HEADER_LEN + len..];
    match Parse(full)
    case Parsed(env, _) => return Some(env);
    case _ => return None;
  }

  method ReadEnvelope(input: ByteSource) returns (r: Option<Envelope>)
    modifies input
    ensures r.Some? <==> KotlinRead(old(input.rest)).Received?
    ensures r.Some? ==> KotlinRead(old(input.rest)) == Received(r.value, input.rest)
  {
    var header := new byte[HEADER_LEN];
    var ok := ReadFully(input, header);
    if !ok {
      return None;
    }
    ghost var s := old(input.rest);
    var h := header[..];
    assert h == s[..HEADER_LEN];
    if h[0] != MAGIC[0] || h[1] != MAGIC[1] || h[2] != PROTOCOL_VERSION {
      return None;
    }
    var channel := ChannelFromByte(h[3]);
    if channel.None? {
      return None;
    }
    var len := ToI32(FromBe32(h[4], h[5], h[6], h[7]));
    if len < 0 || len > 0x10_0000 {
      return None;
    }
    var payload := new byte[len];
    if len > 0 {
      ok := ReadFully(input, payload);
      if !ok {
        return None;
      }
    }
    assert payload[..] == s[HEADER_LEN..HEADER_LEN + len];
    return Some(Envelope(channel.value, payload[..]));
  }

  method SendEnvelope(out: ByteSink, e: Envelope) returns (ok: bool)
    modifies out
    ensures ok <==> Fits(e)
    ensures out.data == if ok then old(out.data) + Frame(e) else old(out.data)
  {
    var buf := new ByteSink();
    var r := EncodeInto(e, buf);
    if r.Err? {
      return false;
    }
    out.Write(buf.data);
    return true;
  }

  /** Kotlin `writeEnvelope`: fills a header array in place and has no size limit of its own. */
  method WriteEnvelope(out: ByteSink, e: Envelope)
    requires |e.payload| < 0x8000_0000
    modifies out
    ensures out.data == old(out.data) + Frame(e)
  {
    var hdr := new byte[HEADER_LEN];
    hdr[0] := MAGIC[0];
    hdr[1] := MAGIC[1];
    hdr[2] := PROTOCOL_VERSION;
    hdr[3] := ChannelByte(e.channel);
    var len := Be32(|e.payload|);
    hdr[4], hdr[5], hdr[6], hdr[7] := len[0], len[1], len[2], len[3];
    out.Write(hdr[..]);
    out.Write(e.payload);
    assert hdr[..] + e.payload == Frame(e);
    assert out.data == old(out.data) + (hdr[..] + e.payload);
  }

  /**
   * Cross-language framing. Each reader recovers what either writer sent, up to the limit and not beyond;
   * only the Rust writer refuses an oversized payload.
   */
  lemma CrossLanguage(e: Envelope, tail: bytes)
    requires |e.payload| < 0x8000_0000
    ensures Encode(e).Ok? <==> Fits(e)
    ensures Encode(e).Ok? ==> Encode(e).value == Frame(e)
    ensures Fits(e) ==> RustRecv(Frame(e) + tail) == KotlinRead(Frame(e) + tail) == Received(e, tail)
    ensures !Fits(e) ==> KotlinRead(Frame(e) + tail) == RustRecv(Frame(e) + tail) == Malformed
  {
    var s := Frame(e) + tail;
    HeaderFields(e, tail);
    RecvIffParse(s);
    assert s[0..2] == [s[0], s[1]];
    if !Fits(e) {
      assert s[..HEADER_LEN + |e.payload|] == Frame(e) + [];
      HeaderFields(e, []);
    }
  }

  // Streams of envelopes

  predicate AllFit(es: seq<Envelope>) {
    forall i | 0 <= i < |es| :: Fits(es[i])
  }

  function FrameAll(es: seq<Envelope>): bytes
    requires AllFit(es)
  {
    if es == [] then [] else Frame(es[0]) + FrameAll(es[1..])
  }

  /** Read envelopes until the stream ends or turns bad. */
  function DecodeAll(s: bytes): (es: seq<Envelope>)
    ensures AllFit(es)
    decreases |s|
  {
    match RustRecv(s)
    case Received(env, rest) => [env] + DecodeAll(rest)
    case _ => []
  }

  lemma NothingToDecode()
    ensures DecodeAll([]) == []
  {
  }

  lemma DecodeStep(e: Envelope, s: bytes)
    requires Fits(e)
    ensures RustRecv(Frame(e) + s) == Received(e, s)
    ensures DecodeAll(Frame(e) + s) == [e] + DecodeAll(s)
  {
    CrossLanguage(e, s);
  }

  lemma FrameAllCons(es: seq<Envelope>, tail: bytes)
    requires AllFit(es) && es != []
    ensures FrameAll(es) + tail == Frame(es[0]) + (FrameAll(es[1..]) + tail)
  {
  }

  /** Reading back the concatenation of any list of encodings gives that list, then the rest. */
  lemma {:induction false} DecodeFrames(es: seq<Envelope>, tail: bytes)
    requires AllFit(es)
    ensures DecodeAll(FrameAll(es) + tail) == es + DecodeAll(tail)
  {
    if es == [] {
      assert FrameAll(es) + tail == tail;
      assert es + DecodeAll(tail) == DecodeAll(tail);
    } else {
      var s := FrameAll(es[1..]) + tail;
      FrameAllCons(es, tail);
      DecodeStep(es[0], s);
      DecodeFrames(es[1..], tail);
      HeadTail(es, DecodeAll(tail));
    }
  }

  /** Conversely the envelopes read re-encode to exactly the bytes they were read from. */
  lemma {:induction false} DecodedIsPrefix(s: bytes)
    ensures FrameAll(DecodeAll(s)) <= s
    decreases |s|
  {
    hide RustRecv, Parse, Frame;
    if RustRecv(s).Received? {
      var env, rest := RustRecv(s).env, RustRecv(s).rest;
      RecvCanonical(s);
      DecodedIsPrefix(rest);
      FrameAllCons(DecodeAll(s), []);
    }
  }

  lemma RecvCanonical(s: bytes)
    requires RustRecv(s).Received?
    ensures s == Frame(RustRecv(s).env) + RustRecv(s).rest
  {
    hide RustRecv, Frame;
    RecvIffParse(s);
    ParseCanonical(s);
  }

  /** Unique decodability: two lists of envelopes with the same bytes are the same list. */
  lemma FramesInjective(xs: seq<Envelope>, ys: seq<Envelope>)
    requires AllFit(xs)
    requires AllFit(ys)
    requires FrameAll(xs) == FrameAll(ys)
    ensures xs == ys
  {
    DecodeFrames(xs, []);
    DecodeFrames(ys, []);
    assert FrameAll(xs) + [] == FrameAll(xs);
    assert xs + DecodeAll([]) == xs && ys + DecodeAll([]) == ys;
  }

  lemma {:induction false} FrameAllConcat(xs: seq<Envelope>, ys: seq<Envelope>)
    requires AllFit(xs)
    requires AllFit(ys)
    ensures AllFit(xs + ys)
    ensures FrameAll(xs + ys) == FrameAll(xs) + FrameAll(ys)
  {
    if xs == [] {
      assert xs + ys == ys;
    } else {
      FrameAllConcat(xs[1..], ys);
      assert (xs + ys)[1..] == xs[1..] + ys;
    }
  }
}
