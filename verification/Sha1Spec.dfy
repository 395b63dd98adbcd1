/**
  SHA-1 as RFC 3174 defines it: padding of section 4, functions and constants of section 5, method 1 of section 6.1.
 */
module Sha1Spec {

  /** The five words carried from block to block. */
  datatype Words = Words(a: bv32, b: bv32, c: bv32, d: bv32, e: bv32)

  const INITIAL := Words(0x67452301, 0xEFCDAB89, 0x98BADCFE, 0x10325476, 0xC3D2E1F0)

  /** Circular left shift of a word. */
  function S(n: bv32, x: bv32): bv32
    requires 0 < n < 32
  {
    (x << n) | (x >> (32 - n))
  }

  function F(t: nat, b: bv32, c: bv32, d: bv32): bv32 {
    if t < 20 then (b & c) | (!b & d)
    else if t < 40 then b ^ c ^ d
    else if t < 60 then (b & c) | (b & d) | (c & d)
    else b ^ c ^ d
  }

  function K(t: nat): bv32 {
    if t < 20 then 0x5A827999
    else if t < 40 then 0x6ED9EBA1
    else if t < 60 then 0x8F1BBCDC
    else 0xCA62C1D6
  }

  /**
    The constants are the square roots of 2, 3, 5 and 10, as far as thirty binary digits behind the point show them.
   */
  lemma ConstantsAreRoots(t: nat)
    requires t < 80
    ensures var n, k := if t < 20 then 2 else if t < 40 then 3 else if t < 60 then 5 else 10, K(t) as int;
            k * k <= n * 0x1000_0000_0000_0000 < (k + 1) * (k + 1)
  {
  }

  /** The bytes of a word, the lowest first. */
  function LowBytesFirst(a: bv8, b: bv8, c: bv8, d: bv8): bv32 {
    ((d as bv32) << 24) | ((c as bv32) << 16) | ((b as bv32) << 8) | (a as bv32)
  }

  /** The initial words hold the hexadecimal digits upwards, the same downwards, and a third pattern. */
  lemma InitialIsPattern()
    ensures INITIAL.a == LowBytesFirst(0x01, 0x23, 0x45, 0x67) && INITIAL.b == LowBytesFirst(0x89, 0xAB, 0xCD, 0xEF)
    ensures INITIAL.c == !INITIAL.a && INITIAL.d == !INITIAL.b
    ensures INITIAL.e == LowBytesFirst(0xF0, 0xE1, 0xD2, 0xC3)
  {
  }

  /** The big-endian word at byte `i`. */
  function WordAt(bytes: seq<bv8>, i: nat): bv32
    requires i + 4 <= |bytes|
  {
    ((bytes[i] as bv32) << 24) | ((bytes[i + 1] as bv32) << 16) | ((bytes[i + 2] as bv32) << 8) | (bytes[i + 3] as bv32)
  }

  function Xor4(a: bv32, b: bv32, c: bv32, d: bv32): bv32 {
    a ^ b ^ c ^ d
  }

  /** The message schedule of a block. */
  ghost function W(block: seq<bv8>, t: nat): bv32
    requires |block| == 64
  {
    if t < 16 then WordAt(block, 4 * t)
    else S(1, Xor4(W(block, t - 3), W(block, t - 8), W(block, t - 14), W(block, t - 16)))
  }

  function Sum(a: bv32, f: bv32, e: bv32, w: bv32, k: bv32): bv32 {
    a + f + e + w + k
  }

  function Round(t: nat, w: bv32, h: Words): Words {
    var temp := Sum(S(5, h.a), F(t, h.b, h.c, h.d), h.e, w, K(t));
    Words(temp, h.a, S(30, h.b), h.c, h.d)
  }

  /** The words after the first `t` rounds over a block. */
  ghost function Rounds(block: seq<bv8>, h: Words, t: nat): Words
    requires |block| == 64
  {
    if t == 0 then h else Round(t - 1, W(block, t - 1), Rounds(block, h, t - 1))
  }

  function Add(g: Words, h: Words): Words {
    Words(g.a + h.a, g.b + h.b, g.c + h.c, g.d + h.d, g.e + h.e)
  }

  ghost function Compress(h: Words, block: seq<bv8>): Words
    requires |block| == 64
  {
    Add(h, Rounds(block, h, 80))
  }

  /** Whole blocks, one after the other; an incomplete tail is ignored. */
  ghost function Digested(h: Words, bytes: seq<bv8>): Words
    decreases |bytes|
  {
    if |bytes| < 64 then h else Digested(Compress(h, bytes[..64]), bytes[64..])
  }

  const BYTE_VALUES: seq<int> := [0x1000000, 0x10000, 0x100, 1]

  /** Byte `i`, counted from the most significant, of a 32-bit number. */
  function ByteOf(n: nat, i: nat): bv8
    requires i < 4
  {
    ((n / BYTE_VALUES[i]) % 256) as bv8
  }

  /** A 64-bit number as two words, most significant byte first. */
  function BigEndian64(n: nat): (r: seq<bv8>)
    ensures |r| == 8
  {
    seq(8, i requires 0 <= i < 8 => if i < 4 then ByteOf((n / 0x1_0000_0000) % 0x1_0000_0000, i)
        else ByteOf(n % 0x1_0000_0000, i - 4))
  }

  /** How many zero bytes follow the 0x80 byte: the least number that leaves eight bytes to a full block. */
  function ZeroCount(n: nat): (k: nat)
    ensures k < 64 && (n + 1 + k) % 64 == 56
  {
    (119 - n % 64) % 64
  }

  ghost function Padded(message: seq<bv8>): seq<bv8> {
    message + [0x80] + seq(ZeroCount(|message|), _ => 0 as bv8) + BigEndian64(8 * |message|)
  }

  /** Byte `i`, counted from the most significant, of a word. */
  function ByteOfWord(w: bv32, i: nat): bv8
    requires i < 4
  {
    if i == 0 then ((w >> 24) & 255) as bv8
    else if i == 1 then ((w >> 16) & 255) as bv8
    else if i == 2 then ((w >> 8) & 255) as bv8
    else (w & 255) as bv8
  }

  function WordNo(h: Words, i: nat): bv32
    requires i < 5
  {
    match i case 0 => h.a case 1 => h.b case 2 => h.c case 3 => h.d case _ => h.e
  }

  function Bytes(h: Words): seq<bv8> {
    seq(20, i requires 0 <= i < 20 => ByteOfWord(WordNo(h, i / 4), i % 4))
  }

  /** The message digest. */
  ghost function Sha1(message: seq<bv8>): seq<bv8> {
    Bytes(Digested(INITIAL, Padded(message)))
  }
}
