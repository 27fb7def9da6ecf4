/** HKDF-Expand of section 2.3 of RFC 5869 as the Android sender computes it, over any 32-byte MAC. */
module Hkdf {
  import opened Bytes

  const HASH_LEN: nat := 32
  const MAX_LEN: nat := 255 * HASH_LEN

  /** HMAC-SHA256 by key and message: only its output length matters here. */
  type Mac = (bytes, bytes) -> bytes

  ghost predicate Is32(mac: Mac) {
    forall key, msg :: |mac(key, msg)| == HASH_LEN
  }

  datatype ExpandError = OutputTooLong | NegativeArraySize

  /** T(i): T(0) is empty and T(i) authenticates T(i - 1), the info and the octet i. */
  function Block(mac: Mac, prk: bytes, info: bytes, i: nat): bytes
    requires i <= 255
  {
    if i == 0 then [] else mac(prk, Block(mac, prk, info, i - 1) + info + [i])
  }

  /** T(1) || ... || T(n). */
  function Blocks(mac: Mac, prk: bytes, info: bytes, n: nat): bytes
    requires n <= 255
  {
    if n == 0 then [] else Blocks(mac, prk, info, n - 1) + Block(mac, prk, info, n)
  }

  lemma {:induction false} BlocksLength(mac: Mac, prk: bytes, info: bytes, n: nat)
    requires Is32(mac) && n <= 255
    ensures |Blocks(mac, prk, info, n)| == HASH_LEN * n
  {
    if n > 0 {
      BlocksLength(mac, prk, info, n - 1);
    }
  }

  /** The number of blocks that `length` bytes take. */
  function BlockCount(length: nat): (n: nat)
    ensures length <= HASH_LEN * n < length + HASH_LEN
    ensures length <= MAX_LEN ==> n <= 255
  {
    (length + HASH_LEN - 1) / HASH_LEN
  }

  /** The first `length` bytes of T(1) || ... || T(N), N the least number of blocks that reaches `length`. */
  ghost function Expand(mac: Mac, prk: bytes, info: bytes, length: nat): (okm: bytes)
    requires Is32(mac) && length <= MAX_LEN
    ensures |okm| == length
  {
    BlocksLength(mac, prk, info, BlockCount(length));
    Blocks(mac, prk, info, BlockCount(length))[..length]
  }

  method ArrayCopy(src: bytes, dst: array<byte>, at: nat, n: nat)
    requires n <= |src| && at + n <= dst.Length
    modifies dst
    ensures dst[..] == old(dst[..at]) + src[..n] + old(dst[at + n..])
  {
    for i := 0 to n
      invariant forall k | 0 <= k < at || at + i <= k < dst.Length :: dst[k] == old(dst[k])
      invariant forall k | 0 <= k < i :: dst[at + k] == src[k]
    {
      dst[at + i] := src[i];
    }
    assert forall k | 0 <= k < n :: dst[..][at + k] == src[k];
  }

  /** `hkdfExpand`: the counter octet is the loop index cut to a byte. */
  method HkdfExpand(mac: Mac, prk: bytes, info: bytes, length: int) returns (r: Result<array<byte>, ExpandError>)
    requires Is32(mac)
    ensures length > 255 * 32 <==> r == Err(OutputTooLong)
    ensures length < 0 <==> r == Err(NegativeArraySize)
    ensures r.Ok? <==> 0 <= length <= 255 * 32
    ensures r.Ok? ==> fresh(r.value) && r.value[..] == Expand(mac, prk, info, length)
  {
    if length > MAX_LEN {
      return Err(OutputTooLong);
    }
    if length < 0 {
      return Err(NegativeArraySize);
    }
    var n := BlockCount(length);
    var okm := new byte[length](_ => 0);
    var prev: bytes := [];
    var written := 0;
    for i := 1 to n + 1
      invariant prev == Block(mac, prk, info, i - 1)
      invariant written == Min(HASH_LEN * (i - 1), length)
      invariant |Blocks(mac, prk, info, i - 1)| == HASH_LEN * (i - 1)
      invariant okm[..written] == Blocks(mac, prk, info, i - 1)[..written]
    {
      hide Block;
      ghost var before, at := okm[..written], written;
      CounterFits(i);
      NextBlock(mac, prk, info, i);
      prev := mac(prk, prev + info + [i % 0x100]);
      var take := Min(HASH_LEN, length - written);
      ArrayCopy(prev, okm, written, take);
      written := written + take;
      assert okm[..written] == before + prev[..take];
      PrefixGrows(Blocks(mac, prk, info, i - 1), prev, at, take);
    }
    return Ok(okm);
  }

  lemma CounterFits(i: nat)
    requires 1 <= i <= 255
    ensures i % 0x100 == i
  {
  }

  lemma NextBlock(mac: Mac, prk: bytes, info: bytes, i: nat)
    requires 1 <= i <= 255
    ensures Block(mac, prk, info, i) == mac(prk, Block(mac, prk, info, i - 1) + info + [i])
  {
  }

  lemma PrefixGrows(a: bytes, b: bytes, at: nat, take: nat)
    requires at <= |a| && take <= |b| && (at == |a| || take == 0)
    ensures a[..at] + b[..take] == (a + b)[..at + take]
  {
  }

  lemma {:induction false} BlockAt(mac: Mac, prk: bytes, info: bytes, n: nat, k: nat)
    requires Is32(mac) && n <= 255 && k < HASH_LEN * n
    ensures |Blocks(mac, prk, info, n)| == HASH_LEN * n && 1 <= k / HASH_LEN + 1 <= n
    ensures Blocks(mac, prk, info, n)[k] == Block(mac, prk, info, k / HASH_LEN + 1)[k % HASH_LEN]
  {
    BlocksLength(mac, prk, info, n);
    BlocksLength(mac, prk, info, n - 1);
    if k < HASH_LEN * (n - 1) {
      BlockAt(mac, prk, info, n - 1, k);
    } else {
      assert k / HASH_LEN == n - 1 && k % HASH_LEN == k - HASH_LEN * (n - 1);
    }
  }

  /** Byte k of the output is byte k mod 32 of T(k / 32 + 1), however long the output. */
  lemma ExpandAt(mac: Mac, prk: bytes, info: bytes, length: nat, k: nat)
    requires Is32(mac) && k < length <= MAX_LEN
    ensures k / HASH_LEN + 1 <= 255
    ensures Expand(mac, prk, info, length)[k] == Block(mac, prk, info, k / HASH_LEN + 1)[k % HASH_LEN]
  {
    BlockAt(mac, prk, info, BlockCount(length), k);
  }

  /** A shorter request is a prefix of every longer one. */
  lemma ShorterIsPrefix(mac: Mac, prk: bytes, info: bytes, a: nat, b: nat)
    requires Is32(mac) && a <= b <= MAX_LEN
    ensures Expand(mac, prk, info, a) == Expand(mac, prk, info, b)[..a]
  {
    hide Expand, Block;
    forall k | 0 <= k < a ensures Expand(mac, prk, info, a)[k] == Expand(mac, prk, info, b)[k] {
      ExpandAt(mac, prk, info, a, k);
      ExpandAt(mac, prk, info, b, k);
    }
  }

  /** `deriveWithInfo`: extract with the salt as key, then expand. */
  method DeriveWithInfo(mac: Mac, salt: bytes, code: bytes, info: bytes, length: int)
    returns (r: Result<array<byte>, ExpandError>)
    requires Is32(mac)
    ensures r.Ok? <==> 0 <= length <= MAX_LEN
    ensures r.Ok? ==> fresh(r.value) && r.value[..] == Expand(mac, mac(salt, code), info, length)
  {
    r := HkdfExpand(mac, mac(salt, code), info, length);
  }

  /** The 32-byte secrets derived from a pairing code are a single block: one MAC of the info and the octet 1. */
  lemma OneBlockSecret(mac: Mac, prk: bytes, info: bytes)
    requires Is32(mac)
    ensures Expand(mac, prk, info, 32) == mac(prk, info + [1])
  {
    assert [] + info + [1] == info + [1];
    assert Block(mac, prk, info, 1) == mac(prk, [] + info + [1]);
    assert Blocks(mac, prk, info, 1) == [] + Block(mac, prk, info, 1);
    assert BlockCount(32) == 1;
  }
}
