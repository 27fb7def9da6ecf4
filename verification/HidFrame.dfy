/** The HID fast lane: 4-byte frame header, and the BindAck body that nests metadata and descriptor. */
module HidFrames {
  import opened Bytes
  import opened Envelopes

  const HID_HEADER_LEN: nat := 4

  datatype HidOp = Bind | BindAck | ReportIn | ReportOut | ReportFeature | Unbind

  function OpByte(op: HidOp): byte {
    match op
    case Bind => 0x01
    case BindAck => 0x02
    case ReportIn => 0x10
    case ReportOut => 0x11
    case ReportFeature => 0x12
    case Unbind => 0x20
  }

  function OpFromByte(v: byte): (op: Option<HidOp>)
    ensures op.Some? ==> OpByte(op.value) == v
    ensures op.None? ==> forall o: HidOp :: OpByte(o) != v
  {
    match v
    case 0x01 => Some(Bind)
    case 0x02 => Some(BindAck)
    case 0x10 => Some(ReportIn)
    case 0x11 => Some(ReportOut)
    case 0x12 => Some(ReportFeature)
    case 0x20 => Some(Unbind)
    case _ => None
  }

  datatype HidFrame = HidFrame(op: HidOp, bindId: byte, seqNo: u16, body: bytes)

  datatype HidError = Short(len: nat) | UnknownOp(value: byte) | BadMeta

  function EncodeFrame(f: HidFrame): bytes {
    [OpByte(f.op), f.bindId] + Be16(f.seqNo) + f.body
  }

  function ParseFrame(p: bytes): Result<HidFrame, HidError> {
    if |p| < HID_HEADER_LEN then Err(Short(|p|))
    else
      var op := OpFromByte(p[0]);
      if op.None? then Err(UnknownOp(p[0]))
      else Ok(HidFrame(op.value, p[1], FromBe16(p[2], p[3]), p[HID_HEADER_LEN..]))
  }

  /** Kotlin `encodeHidFrame` takes `Int`s and keeps their low bits, filling an array in place. */
  method EncodeHidFrame(op: HidOp, bindId: i32, seqNo: i32, body: bytes) returns (r: bytes)
    ensures r == EncodeFrame(HidFrame(op, ToU32(bindId) % 0x100, ToU32(seqNo) % 0x1_0000, body))
  {
    var out := new byte[4 + |body|];
    out[0] := OpByte(op);
    out[1] := ToU32(bindId) % 0x100;
    out[2] := ToU32(seqNo) / 0x100 % 0x100;
    out[3] := ToU32(seqNo) % 0x100;
    forall i | 0 <= i < |body| {
      out[4 + i] := body[i];
    }
    LowBytes(ToU32(seqNo));
    assert out[..] == [out[0], out[1], out[2], out[3]] + body;
    return out[..];
  }

  /** Frames round-trip, and a parsed frame re-encodes to the bytes it came from. */
  lemma FrameRoundTrip(f: HidFrame, p: bytes)
    ensures ParseFrame(EncodeFrame(f)) == Ok(f)
    ensures ParseFrame(p).Ok? ==> EncodeFrame(ParseFrame(p).value) == p
  {
    var e := EncodeFrame(f);
    assert e[HID_HEADER_LEN..] == f.body;
    assert FromBe16(e[2], e[3]) == f.seqNo;
    if ParseFrame(p).Ok? {
      assert Be16(FromBe16(p[2], p[3])) == [p[2], p[3]];
      assert p == [p[0], p[1]] + [p[2], p[3]] + p[4..];
    }
  }

  /** A mouse report and a BindAck body, byte by byte; and what is not a frame. */
  lemma FrameExamples(p: bytes)
    ensures EncodeFrame(HidFrame(ReportIn, 7, 12345, [0x01, 0x05, 0xFB, 0x00]))
         == [0x10, 0x07, 0x30, 0x39, 0x01, 0x05, 0xFB, 0x00]
    ensures EncodeBindAckBody([0x7B, 0x7D], [0x05, 0x01]) == [0x00, 0x02, 0x7B, 0x7D, 0x05, 0x01]
    ensures SplitBindAckBody([0x00, 0x05, 0x7B, 0x7D]) == Err(Short(4))
    ensures |p| < 2 ==> SplitBindAckBody(p) == Err(Short(|p|))
    ensures |p| < 4 ==> ParseFrame(p) == Err(Short(|p|))
    ensures |p| >= 4 ==> (ParseFrame(p) == Err(UnknownOp(p[0])) <==> p[0] !in {0x01, 0x02, 0x10, 0x11, 0x12, 0x20})
  {
  }

  // BindAck body: 16-bit length, metadata (opaque serialized bytes), report descriptor.

  function EncodeBindAckBody(meta: bytes, descriptor: bytes): bytes {
    Be16(|meta| % 0x1_0000) + meta + descriptor
  }

  /** The split performed before the metadata is handed to the JSON parser. */
  function SplitBindAckBody(body: bytes): Result<(bytes, bytes), HidError> {
    if |body| < 2 then Err(Short(|body|))
    else
      var metaLen := FromBe16(body[0], body[1]);
      if |body| < 2 + metaLen then Err(Short(|body|))
      else Ok((body[2..2 + metaLen], body[2 + metaLen..]))
  }

  /** Kotlin `BindAckBody.build` fills the same layout in place. */
  method BuildBindAckBody(meta: bytes, descriptor: bytes) returns (r: bytes)
    ensures r == EncodeBindAckBody(meta, descriptor)
  {
    var out := new byte[2 + |meta| + |descriptor|];
    out[0] := |meta| / 0x100 % 0x100;
    out[1] := |meta| % 0x100;
    forall i | 0 <= i < |meta| {
      out[2 + i] := meta[i];
    }
    forall i | 0 <= i < |descriptor| {
      out[2 + |meta| + i] := descriptor[i];
    }
    LowBytes(|meta|);
    assert out[..] == [out[0], out[1]] + meta + descriptor;
    return out[..];
  }

  /** The split point is right exactly when the metadata is shorter than 65536 bytes. */
  lemma BindAckBodyRoundTrip(meta: bytes, descriptor: bytes)
    ensures SplitBindAckBody(EncodeBindAckBody(meta, descriptor)) == Ok((meta, descriptor)) <==> |meta| < 0x1_0000
    ensures SplitBindAckBody(EncodeBindAckBody(meta, descriptor)).Ok?
  {
    var body := EncodeBindAckBody(meta, descriptor);
    var n := |meta| % 0x1_0000;
    assert body[0] == Be16(n)[0] && body[1] == Be16(n)[1];
    assert FromBe16(body[0], body[1]) == n;
    if |meta| < 0x1_0000 {
      assert body[2..2 + n] == meta && body[2 + n..] == descriptor;
    } else {
      assert |body[2..2 + n]| == n != |meta|;
    }
  }

  /** Decode all three layers, as the receiver does. */
  function ReceiveBindAck(s: bytes): Option<(byte, bytes, bytes)> {
    match Parse(s)
    case Parsed(env, _) =>
      if env.channel != Hid then None
      else (
        match ParseFrame(env.payload)
        case Ok(f) =>
          if f.op != BindAck then None
          else (
            match SplitBindAckBody(f.body)
            case Ok(parts) => Some((f.bindId, parts.0, parts.1))
            case Err(_) => None)
        case Err(_) => None)
    case _ => None
  }

  /** Envelope, frame and body nest: the receiver gets the metadata and descriptor iff the length field holds. */
  lemma BindAckNested(bindId: byte, meta: bytes, descriptor: bytes, tail: bytes)
    requires 6 + |meta| + |descriptor| <= MAX_PAYLOAD
    ensures var f := HidFrame(BindAck, bindId, 0, EncodeBindAckBody(meta, descriptor));
            var e := Envelope(Hid, EncodeFrame(f));
            Fits(e) &&
            (ReceiveBindAck(Frame(e) + tail) == Some((bindId, meta, descriptor)) <==> |meta| < 0x1_0000)
  {
    var f := HidFrame(BindAck, bindId, 0, EncodeBindAckBody(meta, descriptor));
    Envelopes.ParseFrame(Envelope(Hid, EncodeFrame(f)), tail);
    FrameRoundTrip(f, []);
    BindAckBodyRoundTrip(meta, descriptor);
  }
}
