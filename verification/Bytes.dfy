/** Fixed-width integers, byte strings and the big-endian conversions that every codec uses. */
module Bytes {

  type byte = x: int | 0 <= x < 0x100
  type u16 = x: int | 0 <= x < 0x1_0000
  type u32 = x: int | 0 <= x < 0x1_0000_0000
  type i32 = x: int | -0x8000_0000 <= x < 0x8000_0000
  type bytes = seq<byte>

  const TWO32: int := 0x1_0000_0000

  datatype Option<+T> = None | Some(value: T)
  datatype Result<+T, +E> = Ok(value: T) | Err(error: E)

  function Min(a: int, b: int): int {
    if a < b then a else b
  }

  // Two's complement: the same 32 bits read as `u32` (Rust) or as `Int` (Kotlin).

  function ToU32(i: i32): (u: u32)
    ensures u == i || u == i + TWO32
  {
    if i < 0 then i + TWO32 else i
  }

  function ToI32(u: u32): (i: i32)
    ensures ToU32(i) == u
  {
    if u < 0x8000_0000 then u else u - TWO32
  }

  /** Addition of an unsigned 32-bit counter in the release profile. */
  function WrapAdd(a: u32, b: nat): (r: u32)
    ensures a + b < TWO32 ==> r == a + b
  {
    (a + b) % TWO32
  }

  /** Past the limit it wraps: it is congruent to the sum. */
  lemma WrapAddWraps(a: u32, b: nat)
    ensures (a + b - WrapAdd(a, b)) % TWO32 == 0
    ensures TWO32 <= a + b < 2 * TWO32 ==> WrapAdd(a, b) == a + b - TWO32
  {
    var q := (a + b) / TWO32;
    assert a + b - WrapAdd(a, b) == TWO32 * q;
    if TWO32 <= a + b < 2 * TWO32 {
      assert q == 1;
    }
  }

  /** Bit `i` of a byte; the source writes `b & (1 << i) != 0`. */
  predicate Bit(b: byte, i: nat)
    requires i < 8
  {
    var p := [1, 2, 4, 8, 16, 32, 64, 128];
    b / p[i] % 2 == 1
  }

  function Digit(b: byte, i: nat): nat
    requires i < 8
  {
    if Bit(b, i) then 1 else 0
  }

  lemma Halves(b: byte)
    ensures b / 2 / 2 == b / 4 && b / 4 / 2 == b / 8 && b / 8 / 2 == b / 16 && b / 16 / 2 == b / 32
    ensures b / 32 / 2 == b / 64 && b / 64 / 2 == b / 128 && b / 128 / 2 == 0
  {
  }

  lemma Digits(b: byte)
    ensures Digit(b, 0) == b % 2 && Digit(b, 1) == b / 2 % 2 && Digit(b, 2) == b / 4 % 2 && Digit(b, 3) == b / 8 % 2
    ensures Digit(b, 4) == b / 16 % 2 && Digit(b, 5) == b / 32 % 2
    ensures Digit(b, 6) == b / 64 % 2 && Digit(b, 7) == b / 128 % 2
  {
  }

  /** The bits are those of the binary number. */
  lemma BitsOfByte(b: byte)
    ensures b == Digit(b, 0) + 2 * Digit(b, 1) + 4 * Digit(b, 2) + 8 * Digit(b, 3)
               + 16 * Digit(b, 4) + 32 * Digit(b, 5) + 64 * Digit(b, 6) + 128 * Digit(b, 7)
  {
    hide Digit;
    Digits(b);
    Halves(b);
  }

  /** The byte read as `i8`: the value of that range with the same bits. */
  function Signed(b: byte): (v: int)
    ensures -0x80 <= v < 0x80 && (v == b || v == b - 0x100)
  {
    if b < 0x80 then b else b - 0x100
  }

  function Zeros(n: nat): (z: bytes)
    ensures |z| == n && forall i | 0 <= i < n :: z[i] == 0
  {
    seq(n, _ => 0)
  }

  lemma HeadTail<T>(xs: seq<T>, ys: seq<T>)
    requires xs != []
    ensures xs + ys == [xs[0]] + (xs[1..] + ys)
    ensures (xs + ys)[0] == xs[0] && (xs + ys)[1..] == xs[1..] + ys
  {
  }

  // Big-endian 16- and 32-bit words.

  function Be16(v: u16): (b: bytes)
    ensures |b| == 2
  {
    [v / 0x100, v % 0x100]
  }

  /** Byte `k` of a number, counted from the least significant one. */
  function ByteOf(v: nat, k: nat): byte {
    if k == 0 then v % 0x100 else ByteOf(v / 0x100, k - 1)
  }

  function Be32(v: u32): (b: bytes)
    ensures |b| == 4
  {
    [ByteOf(v, 3), ByteOf(v, 2), ByteOf(v, 1), ByteOf(v, 0)]
  }

  function FromBe16(b0: byte, b1: byte): u16 {
    b0 * 0x100 + b1
  }

  function FromBe32(b0: byte, b1: byte, b2: byte, b3: byte): u32 {
    b0 * 0x100_0000 + b1 * 0x1_0000 + b2 * 0x100 + b3
  }

  function ReadU32(b: bytes, off: nat): u32
    requires off + 4 <= |b|
  {
    FromBe32(b[off], b[off + 1], b[off + 2], b[off + 3])
  }

  lemma {:induction false} ByteOfSplit(a: nat, b: byte, k: nat)
    ensures ByteOf(0x100 * a + b, k) == if k == 0 then b else ByteOf(a, k - 1)
  {
    assert (0x100 * a + b) / 0x100 == a && (0x100 * a + b) % 0x100 == b;
  }

  /** Be32 and FromBe32 are inverse to each other. */
  lemma FromBe32RoundTrip(b0: byte, b1: byte, b2: byte, b3: byte)
    ensures Be32(FromBe32(b0, b1, b2, b3)) == [b0, b1, b2, b3]
  {
    var v1, v2 := 0x100 * b0 + b1, 0x100 * (0x100 * b0 + b1) + b2;
    assert FromBe32(b0, b1, b2, b3) == 0x100 * v2 + b3;
    ByteOfSplit(v2, b3, 0);
    ByteOfSplit(v2, b3, 1);
    ByteOfSplit(v2, b3, 2);
    ByteOfSplit(v2, b3, 3);
    ByteOfSplit(v1, b2, 0);
    ByteOfSplit(v1, b2, 1);
    ByteOfSplit(v1, b2, 2);
    ByteOfSplit(b0, b1, 0);
    ByteOfSplit(b0, b1, 1);
  }

  lemma Be32RoundTrip(v: u32)
    ensures FromBe32(Be32(v)[0], Be32(v)[1], Be32(v)[2], Be32(v)[3]) == v
  {
    var v1 := v / 0x100;
    var v2 := v1 / 0x100;
    var v3 := v2 / 0x100;
    assert ByteOf(v, 1) == ByteOf(v1, 0);
    assert ByteOf(v, 2) == ByteOf(v1, 1) == ByteOf(v2, 0);
    assert ByteOf(v, 3) == ByteOf(v1, 2) == ByteOf(v2, 1) == ByteOf(v3, 0);
    assert v == 0x100 * v1 + v % 0x100 && v1 == 0x100 * v2 + v1 % 0x100 && v2 == 0x100 * v3 + v2 % 0x100;
    assert v3 < 0x100;
  }

  lemma LowBytes(x: nat)
    ensures x / 0x100 % 0x100 == x % 0x1_0000 / 0x100
    ensures x % 0x100 == x % 0x1_0000 % 0x100
  {
    var q := x / 0x1_0000;
    var r := x % 0x1_0000;
    assert x == 0x100 * (0x100 * q) + r;
    assert x / 0x100 == 0x100 * q + r / 0x100;
  }

  /** A word written between two byte strings is read back at its offset. */
  lemma ReadBack(a: bytes, v: u32, t: bytes)
    ensures ReadU32(a + Be32(v) + t, |a|) == v
  {
    Be32RoundTrip(v);
    var s := a + Be32(v) + t;
    assert s[|a|] == Be32(v)[0] && s[|a| + 1] == Be32(v)[1];
    assert s[|a| + 2] == Be32(v)[2] && s[|a| + 3] == Be32(v)[3];
  }

  // Runs of big-endian words.

  function Words(ws: seq<u32>): (b: bytes)
    ensures |b| == 4 * |ws|
  {
    if ws == [] then [] else Be32(ws[0]) + Words(ws[1..])
  }

  lemma ReadAfter(a: bytes, s: bytes, off: nat)
    requires off + 4 <= |s|
    ensures ReadU32(a + s, |a| + off) == ReadU32(s, off)
  {
  }

  lemma {:induction false} WordAt(ws: seq<u32>, t: bytes, i: nat)
    requires i < |ws|
    ensures ReadU32(Words(ws) + t, 4 * i) == ws[i]
  {
    hide Be32, ReadU32;
    var rest := Words(ws[1..]) + t;
    assert Words(ws) + t == Be32(ws[0]) + rest;
    if i == 0 {
      ReadBack([], ws[0], rest);
      assert [] + Be32(ws[0]) + rest == Be32(ws[0]) + rest;
    } else {
      WordAt(ws[1..], t, i - 1);
      ReadAfter(Be32(ws[0]), rest, 4 * (i - 1));
    }
  }

  /** Every byte string of whole words is the encoding of the words read from it. */
  lemma {:induction false} WordsOf(b: bytes, ws: seq<u32>)
    requires |b| == 4 * |ws|
    requires forall i | 0 <= i < |ws| :: ws[i] == ReadU32(b, 4 * i)
    ensures Words(ws) == b
  {
    if ws != [] {
      FromBe32RoundTrip(b[0], b[1], b[2], b[3]);
      forall i | 0 <= i < |ws[1..]| ensures ws[1..][i] == ReadU32(b[4..], 4 * i) {
        assert ws[1..][i] == ws[i + 1] == ReadU32(b, 4 * (i + 1));
      }
      WordsOf(b[4..], ws[1..]);
      assert ws[0] == ReadU32(b, 4 * 0);
      assert b == [b[0], b[1], b[2], b[3]] + b[4..];
    }
  }
}
