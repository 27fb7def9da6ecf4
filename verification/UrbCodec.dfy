/** 48-byte USB/IP headers: the Rust structs of `usbip.rs` and the Kotlin codec of `UsbIpFrame.kt`. */
module UrbCodec {
  import opened Bytes

  const URB_HEADER_LEN: nat := 48
  const CMD_SUBMIT: u32 := 1
  const CMD_UNLINK: u32 := 2
  const RET_SUBMIT: u32 := 3
  const RET_UNLINK: u32 := 4
  const URB_DIR_OUT: u32 := 0
  const URB_DIR_IN: u32 := 1

  type Setup = s: bytes | |s| == 8 witness [0, 0, 0, 0, 0, 0, 0, 0]

  /** The setup packet of a request (section 9.3 of USB 2.0), its 16-bit fields little-endian. */
  function SetupOf(requestType: byte, request: byte, value: u16, index: u16, length: u16): Setup {
    [requestType, request, value % 0x100, value / 0x100, index % 0x100, index / 0x100, length % 0x100, length / 0x100]
  }

  datatype CmdSubmit = CmdSubmit(
    seqnum: u32, devid: u32, direction: u32, ep: u32, transferFlags: u32, transferBufferLength: u32,
    startFrame: u32, numberOfPackets: u32, interval: u32, setup: Setup)
  {
    predicate IsControl() { ep == 0 }
  }

  datatype RetSubmit = RetSubmit(
    seqnum: u32, devid: u32, direction: u32, ep: u32, status: i32, actualLength: u32,
    startFrame: u32, numberOfPackets: u32, errorCount: u32)

  datatype CmdUnlink = CmdUnlink(seqnum: u32, devid: u32, direction: u32, ep: u32, unlinkSeqnum: u32)

  datatype RetUnlink = RetUnlink(seqnum: u32, devid: u32, direction: u32, ep: u32, status: i32)

  datatype UrbError = Short(len: nat) | UnknownCommand(command: u32)

  /** Ten big-endian words and eight more bytes. */
  function Header(ws: seq<u32>, tail: Setup): (h: bytes)
    requires |ws| == 10
    ensures |h| == URB_HEADER_LEN
  {
    Words(ws) + tail
  }

  function EncodeCmdSubmit(c: CmdSubmit): bytes {
    Header([CMD_SUBMIT, c.seqnum, c.devid, c.direction, c.ep, c.transferFlags, c.transferBufferLength,
            c.startFrame, c.numberOfPackets, c.interval], c.setup)
  }

  function EncodeRetSubmit(r: RetSubmit): bytes {
    Header([RET_SUBMIT, r.seqnum, r.devid, r.direction, r.ep, ToU32(r.status), r.actualLength,
            r.startFrame, r.numberOfPackets, r.errorCount], Zeros(8))
  }

  function EncodeCmdUnlink(u: CmdUnlink): bytes {
    Header([CMD_UNLINK, u.seqnum, u.devid, u.direction, u.ep, u.unlinkSeqnum, 0, 0, 0, 0], Zeros(8))
  }

  function EncodeRetUnlink(u: RetUnlink): bytes {
    Header([RET_UNLINK, u.seqnum, u.devid, u.direction, u.ep, ToU32(u.status), 0, 0, 0, 0], Zeros(8))
  }

  function ParseCmdSubmit(h: bytes): Result<CmdSubmit, UrbError> {
    if |h| < URB_HEADER_LEN then Err(Short(|h|))
    else if ReadU32(h, 0) != CMD_SUBMIT then Err(UnknownCommand(ReadU32(h, 0)))
    else Ok(CmdSubmit(ReadU32(h, 4), ReadU32(h, 8), ReadU32(h, 12), ReadU32(h, 16), ReadU32(h, 20),
                      ReadU32(h, 24), ReadU32(h, 28), ReadU32(h, 32), ReadU32(h, 36), h[40..48]))
  }

  function ParseRetSubmit(h: bytes): Result<RetSubmit, UrbError> {
    if |h| < URB_HEADER_LEN then Err(Short(|h|))
    else if ReadU32(h, 0) != RET_SUBMIT then Err(UnknownCommand(ReadU32(h, 0)))
    else Ok(RetSubmit(ReadU32(h, 4), ReadU32(h, 8), ReadU32(h, 12), ReadU32(h, 16), ToI32(ReadU32(h, 20)),
                      ReadU32(h, 24), ReadU32(h, 28), ReadU32(h, 32), ReadU32(h, 36)))
  }

  function ParseCmdUnlink(h: bytes): Result<CmdUnlink, UrbError> {
    if |h| < URB_HEADER_LEN then Err(Short(|h|))
    else if ReadU32(h, 0) != CMD_UNLINK then Err(UnknownCommand(ReadU32(h, 0)))
    else Ok(CmdUnlink(ReadU32(h, 4), ReadU32(h, 8), ReadU32(h, 12), ReadU32(h, 16), ReadU32(h, 20)))
  }

  function ParseRetUnlink(h: bytes): Result<RetUnlink, UrbError> {
    if |h| < URB_HEADER_LEN then Err(Short(|h|))
    else if ReadU32(h, 0) != RET_UNLINK then Err(UnknownCommand(ReadU32(h, 0)))
    else Ok(RetUnlink(ReadU32(h, 4), ReadU32(h, 8), ReadU32(h, 12), ReadU32(h, 16), ToI32(ReadU32(h, 20))))
  }

  datatype UrbOp = OpCmdSubmit | OpCmdUnlink | OpRetSubmit | OpRetUnlink

  function PeekUrbOp(h: bytes): Option<UrbOp> {
    if |h| < 4 then None
    else
      match ReadU32(h, 0)
      case 1 => Some(OpCmdSubmit)
      case 2 => Some(OpCmdUnlink)
      case 3 => Some(OpRetSubmit)
      case 4 => Some(OpRetUnlink)
      case _ => None
  }

  // Round trips

  /** Every field of a header is read back, also when a body follows. */
  lemma HeaderFields(ws: seq<u32>, tail: Setup, body: bytes)
    requires |ws| == 10
    ensures var h := Header(ws, tail) + body;
            && ReadU32(h, 0) == ws[0] && ReadU32(h, 4) == ws[1] && ReadU32(h, 8) == ws[2]
            && ReadU32(h, 12) == ws[3] && ReadU32(h, 16) == ws[4] && ReadU32(h, 20) == ws[5]
            && ReadU32(h, 24) == ws[6] && ReadU32(h, 28) == ws[7] && ReadU32(h, 32) == ws[8]
            && ReadU32(h, 36) == ws[9] && h[40..48] == tail
  {
    var h := Header(ws, tail) + body;
    assert h == Words(ws) + (tail + body);
    forall i: nat | i < 10 ensures ReadU32(h, 4 * i) == ws[i] {
      WordAt(ws, tail + body, i);
    }
    assert ReadU32(h, 4 * 0) == ws[0] && ReadU32(h, 4 * 1) == ws[1] && ReadU32(h, 4 * 2) == ws[2];
    assert ReadU32(h, 4 * 3) == ws[3] && ReadU32(h, 4 * 4) == ws[4] && ReadU32(h, 4 * 5) == ws[5];
    assert ReadU32(h, 4 * 6) == ws[6] && ReadU32(h, 4 * 7) == ws[7] && ReadU32(h, 4 * 8) == ws[8];
    assert ReadU32(h, 4 * 9) == ws[9];
  }

  lemma ReadPrefix(h: bytes, n: nat, off: nat)
    requires off + 4 <= n <= |h|
    ensures ReadU32(h[..n], off) == ReadU32(h, off)
  {
  }

  /** A header is the encoding of the words read from it. */
  lemma HeaderOf(h: bytes)
    requires |h| == URB_HEADER_LEN
    ensures h == Header([ReadU32(h, 0), ReadU32(h, 4), ReadU32(h, 8), ReadU32(h, 12), ReadU32(h, 16),
                         ReadU32(h, 20), ReadU32(h, 24), ReadU32(h, 28), ReadU32(h, 32), ReadU32(h, 36)], h[40..48])
  {
    hide ReadU32, Words, Be32;
    var ws := [ReadU32(h, 0), ReadU32(h, 4), ReadU32(h, 8), ReadU32(h, 12), ReadU32(h, 16),
               ReadU32(h, 20), ReadU32(h, 24), ReadU32(h, 28), ReadU32(h, 32), ReadU32(h, 36)];
    forall i: nat | i < 10 ensures ws[i] == ReadU32(h[..40], 4 * i) {
      ReadPrefix(h, 40, 4 * i);
    }
    WordsOf(h[..40], ws);
    assert h == h[..40] + h[40..48];
  }

  /** Where each field of a header is, as the kernel's USB/IP protocol document lays them out. */
  lemma HeaderLayout(c: CmdSubmit, r: RetSubmit, u: CmdUnlink, v: RetUnlink)
    ensures var h := EncodeCmdSubmit(c);
            && ReadU32(h, 0) == 1 && ReadU32(h, 4) == c.seqnum && ReadU32(h, 8) == c.devid
            && ReadU32(h, 12) == c.direction && ReadU32(h, 16) == c.ep && ReadU32(h, 20) == c.transferFlags
            && ReadU32(h, 24) == c.transferBufferLength && ReadU32(h, 28) == c.startFrame
            && ReadU32(h, 32) == c.numberOfPackets && ReadU32(h, 36) == c.interval && h[40..48] == c.setup
    ensures var h := EncodeRetSubmit(r);
            && ReadU32(h, 0) == 3 && ReadU32(h, 4) == r.seqnum && ReadU32(h, 8) == r.devid
            && ReadU32(h, 12) == r.direction && ReadU32(h, 16) == r.ep && ReadU32(h, 20) == ToU32(r.status)
            && ReadU32(h, 24) == r.actualLength && ReadU32(h, 28) == r.startFrame
            && ReadU32(h, 32) == r.numberOfPackets && ReadU32(h, 36) == r.errorCount && h[40..48] == Zeros(8)
    ensures var h := EncodeCmdUnlink(u);
            && ReadU32(h, 0) == 2 && ReadU32(h, 4) == u.seqnum && ReadU32(h, 8) == u.devid
            && ReadU32(h, 12) == u.direction && ReadU32(h, 16) == u.ep && ReadU32(h, 20) == u.unlinkSeqnum
    ensures var h := EncodeRetUnlink(v);
            && ReadU32(h, 0) == 4 && ReadU32(h, 4) == v.seqnum && ReadU32(h, 8) == v.devid
            && ReadU32(h, 12) == v.direction && ReadU32(h, 16) == v.ep && ReadU32(h, 20) == ToU32(v.status)
  {
    hide ReadU32, Words, Header, ToU32;
    HeaderFields([CMD_SUBMIT, c.seqnum, c.devid, c.direction, c.ep, c.transferFlags, c.transferBufferLength,
                  c.startFrame, c.numberOfPackets, c.interval], c.setup, []);
    HeaderFields([RET_SUBMIT, r.seqnum, r.devid, r.direction, r.ep, ToU32(r.status), r.actualLength,
                  r.startFrame, r.numberOfPackets, r.errorCount], Zeros(8), []);
    HeaderFields([CMD_UNLINK, u.seqnum, u.devid, u.direction, u.ep, u.unlinkSeqnum, 0, 0, 0, 0], Zeros(8), []);
    HeaderFields([RET_UNLINK, v.seqnum, v.devid, v.direction, v.ep, ToU32(v.status), 0, 0, 0, 0], Zeros(8), []);
    assert EncodeCmdSubmit(c) + [] == EncodeCmdSubmit(c) && EncodeRetSubmit(r) + [] == EncodeRetSubmit(r);
    assert EncodeCmdUnlink(u) + [] == EncodeCmdUnlink(u) && EncodeRetUnlink(v) + [] == EncodeRetUnlink(v);
  }

  predicate ParsesOnlyAs(h: bytes, op: UrbOp) {
    && PeekUrbOp(h) == Some(op)
    && (ParseCmdSubmit(h).Ok? <==> op == OpCmdSubmit)
    && (ParseCmdUnlink(h).Ok? <==> op == OpCmdUnlink)
    && (ParseRetSubmit(h).Ok? <==> op == OpRetSubmit)
    && (ParseRetUnlink(h).Ok? <==> op == OpRetUnlink)
  }

  lemma SignedWord(i: i32)
    ensures ToI32(ToU32(i)) == i
  {
  }

  lemma CommandDecidesKind(h: bytes, op: UrbOp)
    requires |h| >= URB_HEADER_LEN && PeekUrbOp(h) == Some(op)
    ensures ParsesOnlyAs(h, op)
  {
  }

  lemma CmdSubmitRoundTrip(c: CmdSubmit, body: bytes)
    ensures ParseCmdSubmit(EncodeCmdSubmit(c) + body) == Ok(c)
    ensures ParsesOnlyAs(EncodeCmdSubmit(c) + body, OpCmdSubmit)
  {
    hide ReadU32, Words, Be32, Header, ToU32, ToI32;
    var h := EncodeCmdSubmit(c) + body;
    assert ParseCmdSubmit(h) == Ok(c) && PeekUrbOp(h) == Some(OpCmdSubmit) by {
      HeaderFields([CMD_SUBMIT, c.seqnum, c.devid, c.direction, c.ep, c.transferFlags, c.transferBufferLength,
                    c.startFrame, c.numberOfPackets, c.interval], c.setup, body);
    }
    CommandDecidesKind(h, OpCmdSubmit);
  }

  lemma RetSubmitRoundTrip(r: RetSubmit, body: bytes)
    ensures ParseRetSubmit(EncodeRetSubmit(r) + body) == Ok(r)
    ensures ParsesOnlyAs(EncodeRetSubmit(r) + body, OpRetSubmit)
  {
    hide ReadU32, Words, Be32, Header, ToU32, ToI32;
    SignedWord(r.status);
    var h := EncodeRetSubmit(r) + body;
    assert ParseRetSubmit(h) == Ok(r) && PeekUrbOp(h) == Some(OpRetSubmit) by {
      HeaderFields([RET_SUBMIT, r.seqnum, r.devid, r.direction, r.ep, ToU32(r.status), r.actualLength,
                    r.startFrame, r.numberOfPackets, r.errorCount], Zeros(8), body);
    }
    CommandDecidesKind(h, OpRetSubmit);
  }

  lemma CmdUnlinkRoundTrip(u: CmdUnlink, body: bytes)
    ensures ParseCmdUnlink(EncodeCmdUnlink(u) + body) == Ok(u)
    ensures ParsesOnlyAs(EncodeCmdUnlink(u) + body, OpCmdUnlink)
  {
    hide ReadU32, Words, Be32, Header, ToU32, ToI32;
    var h := EncodeCmdUnlink(u) + body;
    assert ParseCmdUnlink(h) == Ok(u) && PeekUrbOp(h) == Some(OpCmdUnlink) by {
      HeaderFields([CMD_UNLINK, u.seqnum, u.devid, u.direction, u.ep, u.unlinkSeqnum, 0, 0, 0, 0], Zeros(8), body);
    }
    CommandDecidesKind(h, OpCmdUnlink);
  }

  lemma RetUnlinkRoundTrip(u: RetUnlink, body: bytes)
    ensures ParseRetUnlink(EncodeRetUnlink(u) + body) == Ok(u)
    ensures ParsesOnlyAs(EncodeRetUnlink(u) + body, OpRetUnlink)
  {
    hide ReadU32, Words, Be32, Header, ToU32, ToI32;
    SignedWord(u.status);
    var h := EncodeRetUnlink(u) + body;
    assert ParseRetUnlink(h) == Ok(u) && PeekUrbOp(h) == Some(OpRetUnlink) by {
      HeaderFields([RET_UNLINK, u.seqnum, u.devid, u.direction, u.ep, ToU32(u.status), 0, 0, 0, 0], Zeros(8), body);
    }
    CommandDecidesKind(h, OpRetUnlink);
  }

  /** The header with everything from `from` on zeroed. */
  function Cleared(h: bytes, from: nat): bytes
    requires from <= |h|
  {
    h[..from] + Zeros(|h| - from)
  }

  lemma ClearedHeader(h: bytes, ws: seq<u32>)
    requires |h| == URB_HEADER_LEN && |ws| == 10 && h == Header(ws, h[40..48])
    ensures Header(ws, Zeros(8)) == Cleared(h, 40)
    ensures Header([ws[0], ws[1], ws[2], ws[3], ws[4], ws[5], 0, 0, 0, 0], Zeros(8)) == Cleared(h, 24)
  {
    assert h[..40] == Words(ws);
    WordsConcat(ws[..6], ws[6..]);
    assert ws == ws[..6] + ws[6..];
    assert h[..24] == Words(ws[..6]);
    ZeroWords(ws[..6]);
  }

  /** Encoding after parsing changes nothing but the bytes a kind does not use, which become zero. */
  lemma ReencodeClearsReserved(h: bytes)
    requires |h| == URB_HEADER_LEN
    ensures ParseCmdSubmit(h).Ok? ==> EncodeCmdSubmit(ParseCmdSubmit(h).value) == h
    ensures ParseRetSubmit(h).Ok? ==> EncodeRetSubmit(ParseRetSubmit(h).value) == Cleared(h, 40)
    ensures ParseCmdUnlink(h).Ok? ==> EncodeCmdUnlink(ParseCmdUnlink(h).value) == Cleared(h, 24)
    ensures ParseRetUnlink(h).Ok? ==> EncodeRetUnlink(ParseRetUnlink(h).value) == Cleared(h, 24)
  {
    HeaderOf(h);
    ClearedHeader(h, [ReadU32(h, 0), ReadU32(h, 4), ReadU32(h, 8), ReadU32(h, 12), ReadU32(h, 16),
                      ReadU32(h, 20), ReadU32(h, 24), ReadU32(h, 28), ReadU32(h, 32), ReadU32(h, 36)]);
  }

  lemma {:induction false} WordsConcat(a: seq<u32>, b: seq<u32>)
    ensures Words(a + b) == Words(a) + Words(b)
  {
    if a == [] {
      assert a + b == b;
    } else {
      WordsConcat(a[1..], b);
      HeadTail(a, b);
    }
  }

  lemma ZeroWord()
    ensures Be32(0) == Zeros(4)
  {
  }

  lemma {:induction false} AllZeroWords(zs: seq<u32>)
    requires forall i | 0 <= i < |zs| :: zs[i] == 0
    ensures Words(zs) == Zeros(4 * |zs|)
  {
    hide Be32;
    if zs != [] {
      ZeroWord();
      AllZeroWords(zs[1..]);
      assert Zeros(4) + Zeros(4 * |zs[1..]|) == Zeros(4 * |zs|);
    }
  }

  /** Four zero words are sixteen zero bytes. */
  lemma ZeroWords(ws: seq<u32>)
    requires |ws| == 6
    ensures Header([ws[0], ws[1], ws[2], ws[3], ws[4], ws[5], 0, 0, 0, 0], Zeros(8)) == Words(ws) + Zeros(24)
  {
    hide Words, Be32;
    var zs: seq<u32> := [0, 0, 0, 0];
    AllZeroWords(zs);
    WordsConcat(ws, zs);
    assert ws + zs == [ws[0], ws[1], ws[2], ws[3], ws[4], ws[5], 0, 0, 0, 0];
    assert Zeros(16) + Zeros(8) == Zeros(24);
    assert Words(ws) + Zeros(16) + Zeros(8) == Words(ws) + (Zeros(16) + Zeros(8));
  }

  // In-place encoding

  method WriteU32(b: array<byte>, off: nat, v: u32)
    requires off + 4 <= b.Length
    modifies b
    ensures b[..off + 4] == old(b[..off]) + Be32(v)
    ensures b[off + 4..] == old(b[off + 4..])
  {
    var w := Be32(v);
    b[off], b[off + 1], b[off + 2], b[off + 3] := w[0], w[1], w[2], w[3];
    assert b[..off + 4] == b[..off] + [b[off], b[off + 1], b[off + 2], b[off + 3]];
  }

  /** Ten consecutive `write_u32` calls into a zeroed header. */
  method FillHeader(out: array<byte>, ws: seq<u32>)
    requires out.Length == URB_HEADER_LEN && |ws| <= 10
    modifies out
    ensures out[..4 * |ws|] == Words(ws)
    ensures out[4 * |ws|..] == old(out[4 * |ws|..])
  {
    var i := 0;
    while i < |ws|
      invariant 0 <= i <= |ws|
      invariant out[..4 * i] == Words(ws[..i])
      invariant out[4 * i..] == old(out[4 * i..])
    {
      ghost var before := out[4 * i..];
      WriteU32(out, 4 * i, ws[i]);
      assert old(out[4 * (i + 1)..]) == old(out[4 * i..])[4..];
      assert ws[..i + 1] == ws[..i] + [ws[i]];
      WordsConcat(ws[..i], [ws[i]]);
      assert Words([ws[i]]) == Be32(ws[i]);
      i := i + 1;
    }
    assert ws[..|ws|] == ws;
  }

  method EncodeCmdSubmitInPlace(c: CmdSubmit) returns (out: array<byte>)
    ensures fresh(out) && out[..] == EncodeCmdSubmit(c)
  {
    out := new byte[URB_HEADER_LEN](_ => 0);
    var ws := [CMD_SUBMIT, c.seqnum, c.devid, c.direction, c.ep, c.transferFlags, c.transferBufferLength,
               c.startFrame, c.numberOfPackets, c.interval];
    FillHeader(out, ws);
    forall i | 0 <= i < 8 {
      out[40 + i] := c.setup[i];
    }
    assert out[..] == out[..40] + out[40..];
  }

  method EncodeRetSubmitInPlace(r: RetSubmit) returns (out: array<byte>)
    ensures fresh(out) && out[..] == EncodeRetSubmit(r)
  {
    out := new byte[URB_HEADER_LEN](_ => 0);
    FillHeader(out, [RET_SUBMIT, r.seqnum, r.devid, r.direction, r.ep, ToU32(r.status), r.actualLength,
                     r.startFrame, r.numberOfPackets, r.errorCount]);
    assert out[..] == out[..40] + out[40..] && out[40..] == Zeros(8);
  }

  method EncodeCmdUnlinkInPlace(u: CmdUnlink) returns (out: array<byte>)
    ensures fresh(out) && out[..] == EncodeCmdUnlink(u)
  {
    out := new byte[URB_HEADER_LEN](_ => 0);
    var ws := [CMD_UNLINK, u.seqnum, u.devid, u.direction, u.ep, u.unlinkSeqnum];
    FillHeader(out, ws);
    assert out[..] == out[..24] + out[24..] && out[24..] == Zeros(24);
    ZeroWords(ws);
  }

  method EncodeRetUnlinkInPlace(u: RetUnlink) returns (out: array<byte>)
    ensures fresh(out) && out[..] == EncodeRetUnlink(u)
  {
    out := new byte[URB_HEADER_LEN](_ => 0);
    var ws := [RET_UNLINK, u.seqnum, u.devid, u.direction, u.ep, ToU32(u.status)];
    FillHeader(out, ws);
    assert out[..] == out[..24] + out[24..] && out[24..] == Zeros(24);
    ZeroWords(ws);
  }

  // The import_id prefix of the USB/IP channel

  datatype UsbipFrame = UsbipFrame(importId: u32, raw: bytes)

  function EncodeUsbip(f: UsbipFrame): bytes {
    Be32(f.importId) + f.raw
  }

  function ParseUsbip(p: bytes): Option<UsbipFrame> {
    if |p| < 4 then None else Some(UsbipFrame(ReadU32(p, 0), p[4..]))
  }

  lemma UsbipRoundTrip(f: UsbipFrame, p: bytes)
    ensures ParseUsbip(EncodeUsbip(f)) == Some(f)
    ensures ParseUsbip(p).Some? ==> EncodeUsbip(ParseUsbip(p).value) == p
  {
    ReadBack([], f.importId, f.raw);
    assert [] + Be32(f.importId) + f.raw == EncodeUsbip(f);
    if |p| >= 4 {
      FromBe32RoundTrip(p[0], p[1], p[2], p[3]);
      assert p == [p[0], p[1], p[2], p[3]] + p[4..];
    }
  }

  // The Kotlin codec: the same bits as `Int`s, read and written through a cursor.

  datatype KCmdSubmit = KCmdSubmit(
    seqnum: i32, devid: i32, direction: i32, ep: i32, transferFlags: i32, transferBufferLength: i32,
    startFrame: i32, numberOfPackets: i32, interval: i32, setup: Setup)

  datatype KCmdUnlink = KCmdUnlink(seqnum: i32, devid: i32, direction: i32, ep: i32, unlinkSeqnum: i32)

  function AsKotlin(c: CmdSubmit): KCmdSubmit {
    KCmdSubmit(ToI32(c.seqnum), ToI32(c.devid), ToI32(c.direction), ToI32(c.ep), ToI32(c.transferFlags),
               ToI32(c.transferBufferLength), ToI32(c.startFrame), ToI32(c.numberOfPackets), ToI32(c.interval), c.setup)
  }

  function AsKotlinUnlink(u: CmdUnlink): KCmdUnlink {
    KCmdUnlink(ToI32(u.seqnum), ToI32(u.devid), ToI32(u.direction), ToI32(u.ep), ToI32(u.unlinkSeqnum))
  }

  /** `java.nio.ByteBuffer`, big-endian, over an array. */
  class ByteBuffer {
    const arr: array<byte>
    var pos: nat

    constructor (a: array<byte>)
      ensures arr == a && pos == 0
    {
      arr, pos := a, 0;
    }

    method GetInt() returns (v: i32)
      requires pos + 4 <= arr.Length
      modifies this`pos
      ensures pos == old(pos) + 4 && v == ToI32(ReadU32(arr[..], old(pos)))
    {
      v := ToI32(FromBe32(arr[pos], arr[pos + 1], arr[pos + 2], arr[pos + 3]));
      pos := pos + 4;
    }

    method PutInt(v: i32)
      requires pos + 4 <= arr.Length
      modifies this`pos, arr
      ensures pos == old(pos) + 4
      ensures arr[..pos] == old(arr[..pos]) + Be32(ToU32(v))
      ensures arr[pos..] == old(arr[pos + 4..])
    {
      WriteU32(arr, pos, ToU32(v));
      pos := pos + 4;
    }
  }

  /** Kotlin `parseCmdSubmit` accepts what Rust accepts and reads the same bits. */
  method ParseCmdSubmitKotlin(buf: array<byte>) returns (r: Option<KCmdSubmit>)
    ensures r.Some? <==> ParseCmdSubmit(buf[..]).Ok?
    ensures r.Some? ==> r.value == AsKotlin(ParseCmdSubmit(buf[..]).value)
  {
    if buf.Length < URB_HEADER_LEN {
      return None;
    }
    var b := new ByteBuffer(buf);
    var cmd := b.GetInt();
    if cmd != 1 {
      return None;
    }
    var seqnum := b.GetInt();
    var devid := b.GetInt();
    var direction := b.GetInt();
    var ep := b.GetInt();
    var transferFlags := b.GetInt();
    var transferBufferLength := b.GetInt();
    var startFrame := b.GetInt();
    var numberOfPackets := b.GetInt();
    var interval := b.GetInt();
    assert buf[40..48] == buf[..][40..48];
    return Some(KCmdSubmit(seqnum, devid, direction, ep, transferFlags, transferBufferLength, startFrame,
                           numberOfPackets, interval, buf[40..48]));
  }

  method ParseCmdUnlinkKotlin(buf: array<byte>) returns (r: Option<KCmdUnlink>)
    ensures r.Some? <==> ParseCmdUnlink(buf[..]).Ok?
    ensures r.Some? ==> r.value == AsKotlinUnlink(ParseCmdUnlink(buf[..]).value)
  {
    if buf.Length < URB_HEADER_LEN {
      return None;
    }
    var b := new ByteBuffer(buf);
    var cmd := b.GetInt();
    if cmd != 2 {
      return None;
    }
    var seqnum := b.GetInt();
    var devid := b.GetInt();
    var direction := b.GetInt();
    var ep := b.GetInt();
    var unlinkSeqnum := b.GetInt();
    return Some(KCmdUnlink(seqnum, devid, direction, ep, unlinkSeqnum));
  }

  /** The reply headers with the fields that `UsbIpHost` never sets left at their default 0. */
  function KRetSubmit(seqnum: i32, status: i32, actualLength: i32, data: bytes): bytes {
    EncodeRetSubmit(RetSubmit(ToU32(seqnum), 0, 0, 0, status, ToU32(actualLength), 0, 0, 0)) + data
  }

  function KRetUnlink(seqnum: i32, status: i32): bytes {
    EncodeRetUnlink(RetUnlink(ToU32(seqnum), 0, 0, 0, status))
  }

  /** Consecutive `putInt` calls. */
  method PutInts(b: ByteBuffer, vs: seq<i32>, ghost ws: seq<u32>)
    requires b.pos == 0 && 4 * |vs| <= b.arr.Length
    requires |ws| == |vs| && forall i | 0 <= i < |vs| :: ws[i] == ToU32(vs[i])
    modifies b`pos, b.arr
    ensures b.arr[..4 * |vs|] == Words(ws)
    ensures b.arr[4 * |vs|..] == old(b.arr[4 * |vs|..])
  {
    var i := 0;
    while i < |vs|
      invariant 0 <= i <= |vs| && b.pos == 4 * i
      invariant b.arr[..4 * i] == Words(ws[..i])
      invariant b.arr[4 * i..] == old(b.arr[4 * i..])
    {
      assert old(b.arr[4 * (i + 1)..]) == old(b.arr[4 * i..])[4..];
      b.PutInt(vs[i]);
      assert ws[..i + 1] == ws[..i] + [ws[i]];
      WordsConcat(ws[..i], [ws[i]]);
      assert Words([ws[i]]) == Be32(ws[i]);
      i := i + 1;
    }
    assert ws[..|ws|] == ws;
  }

  /** `encodeRetSubmit`: parameters that a call leaves out are 0 or empty; devid is always 0. */
  method EncodeRetSubmitKotlin(
    seqnum: i32, status: i32, actualLength: i32, startFrame: i32 := 0, numberOfPackets: i32 := 0, errorCount: i32 := 0,
    direction: i32 := 0, ep: i32 := 0, data: bytes := []) returns (r: bytes)
    ensures r == EncodeRetSubmit(RetSubmit(
                   ToU32(seqnum), 0, ToU32(direction), ToU32(ep), status, ToU32(actualLength),
                   ToU32(startFrame), ToU32(numberOfPackets), ToU32(errorCount))) + data
  {
    var out := new byte[URB_HEADER_LEN + |data|](_ => 0);
    var b := new ByteBuffer(out);
    ghost var ws: seq<u32> := [
      RET_SUBMIT, ToU32(seqnum), 0, ToU32(direction), ToU32(ep), ToU32(status), ToU32(actualLength),
      ToU32(startFrame), ToU32(numberOfPackets), ToU32(errorCount)];
    PutInts(b, [3, seqnum, 0, direction, ep, status, actualLength, startFrame, numberOfPackets, errorCount], ws);
    assert out[40..] == Zeros(8 + |data|);
    assert forall k | 40 <= k < 48 :: out[k] == out[40..][k - 40] == 0;
    forall k | 0 <= k < |data| {
      out[URB_HEADER_LEN + k] := data[k];
    }
    assert out[..40] == Words(ws);
    assert out[40..48] == Zeros(8) && out[48..] == data;
    assert out[..] == out[..40] + out[40..48] + out[48..];
    return out[..];
  }

  /** `encodeRetUnlink`, in the same way. */
  method EncodeRetUnlinkKotlin(seqnum: i32, status: i32, direction: i32 := 0, ep: i32 := 0, devid: i32 := 0)
    returns (r: bytes)
    ensures r == EncodeRetUnlink(RetUnlink(ToU32(seqnum), ToU32(devid), ToU32(direction), ToU32(ep), status))
  {
    var out := new byte[URB_HEADER_LEN](_ => 0);
    var b := new ByteBuffer(out);
    ghost var ws: seq<u32> := [
      RET_UNLINK, ToU32(seqnum), ToU32(devid), ToU32(direction), ToU32(ep), ToU32(status)];
    PutInts(b, [4, seqnum, devid, direction, ep, status], ws);
    assert out[..] == out[..24] + out[24..] && out[24..] == Zeros(24);
    ZeroWords(ws);
    return out[..];
  }

  /** Shifting right by whole bytes and masking picks the bytes of a word. */
  lemma ShiftedBytes(v: u32)
    ensures Be32(v) == [v / 0x100_0000, v / 0x1_0000 % 0x100, v / 0x100 % 0x100, v % 0x100]
  {
    var v1 := v / 0x100;
    var v2 := v1 / 0x100;
    var v3 := v2 / 0x100;
    assert v2 == v / 0x1_0000 && v3 == v / 0x100_0000 < 0x100;
    assert ByteOf(v, 1) == ByteOf(v1, 0) && ByteOf(v, 2) == ByteOf(v1, 1) == ByteOf(v2, 0);
    assert ByteOf(v, 3) == ByteOf(v1, 2) == ByteOf(v2, 1) == ByteOf(v3, 0);
  }

  /** `wrapImport` writes the Rust encoding of the prefixed packet. */
  method WrapImport(importId: i32, payload: bytes) returns (r: bytes)
    ensures r == EncodeUsbip(UsbipFrame(ToU32(importId), payload))
  {
    hide ByteOf;
    var v := ToU32(importId);
    ShiftedBytes(v);
    var out := new byte[4 + |payload|];
    out[0], out[1], out[2], out[3] := v / 0x100_0000, v / 0x1_0000 % 0x100, v / 0x100 % 0x100, v % 0x100;
    forall k | 0 <= k < |payload| {
      out[4 + k] := payload[k];
    }
    assert out[..] == [out[0], out[1], out[2], out[3]] + payload;
    return out[..];
  }

  /** `unwrapImport` accepts what the Rust parser accepts and splits it alike. */
  method UnwrapImport(payload: bytes) returns (r: Option<(i32, bytes)>)
    ensures r.Some? <==> ParseUsbip(payload).Some?
    ensures r.Some? ==> ParseUsbip(payload).value == UsbipFrame(ToU32(r.value.0), r.value.1)
  {
    if |payload| < 4 {
      return None;
    }
    return Some((ToI32(FromBe32(payload[0], payload[1], payload[2], payload[3])), payload[4..]));
  }
}
