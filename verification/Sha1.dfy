/** The streaming SHA-1 of the library, proved against `Sha1Spec`. */
module Sha1 {
  import opened Sha1Spec

  // ----- reading a block -----

  /** A word of the block as the machine loads it. */
  function Load(bigEndian: bool, bytes: seq<bv8>, i: nat): bv32
    requires i + 4 <= |bytes|
  {
    if bigEndian then WordAt(bytes, i)
    else ((bytes[i + 3] as bv32) << 24) | ((bytes[i + 2] as bv32) << 16) | ((bytes[i + 1] as bv32) << 8)
         | (bytes[i] as bv32)
  }

  /** `blk0`: turns a loaded word into a big-endian one. */
  function Blk0(bigEndian: bool, l: bv32): bv32 {
    if bigEndian then l else (S(24, l) & 0xFF00FF00) | (S(8, l) & 0x00FF00FF)
  }

  lemma SwapIsBigEndian(a: bv8, b: bv8, c: bv8, d: bv8)
    ensures var l := ((d as bv32) << 24) | ((c as bv32) << 16) | ((b as bv32) << 8) | (a as bv32);
            (S(24, l) & 0xFF00FF00) | (S(8, l) & 0x00FF00FF)
            == ((a as bv32) << 24) | ((b as bv32) << 16) | ((c as bv32) << 8) | (d as bv32)
  {
  }

  /** On either kind of machine the word used is the big-endian one. */
  lemma Blk0IsWordAt(bigEndian: bool, bytes: seq<bv8>, i: nat)
    requires i + 4 <= |bytes|
    ensures Blk0(bigEndian, Load(bigEndian, bytes, i)) == WordAt(bytes, i)
  {
    SwapIsBigEndian(bytes[i], bytes[i + 1], bytes[i + 2], bytes[i + 3]);
  }

  // ----- one step -----

  /** The mixing functions as the step macros write them. */
  function Mix(t: nat, w: bv32, x: bv32, y: bv32): bv32 {
    if t < 20 then (w & (x ^ y)) ^ y
    else if t < 40 then w ^ x ^ y
    else if t < 60 then ((w | x) & y) | (w & x)
    else w ^ x ^ y
  }

  lemma ChooseForm(w: bv32, x: bv32, y: bv32)
    ensures (w & (x ^ y)) ^ y == (w & x) | (!w & y)
  {
  }

  lemma MajorityForm(w: bv32, x: bv32, y: bv32)
    ensures ((w | x) & y) | (w & x) == (w & x) | (w & y) | (x & y)
  {
  }

  lemma MixIsF(t: nat, w: bv32, x: bv32, y: bv32)
    ensures Mix(t, w, x, y) == F(t, w, x, y)
  {
    ChooseForm(w, x, y);
    MajorityForm(w, x, y);
  }

  /** The order in which a step adds its terms. */
  function StepSum(z: bv32, f: bv32, l: bv32, k: bv32, v: bv32): bv32 {
    z + (f + l + k + v)
  }

  lemma StepSumIsSum(z: bv32, f: bv32, l: bv32, k: bv32, v: bv32)
    ensures StepSum(z, f, l, k, v) == Sum(v, f, z, l, k)
  {
  }

  /** The new value of the register that step `t` accumulates into. */
  function Accumulate(t: nat, l: bv32, v: bv32, w: bv32, x: bv32, y: bv32, z: bv32): bv32 {
    StepSum(z, Mix(t, w, x, y), l, K(t), S(5, v))
  }

  lemma AccumulateIsRound(t: nat, l: bv32, h: Words)
    ensures Words(Accumulate(t, l, h.a, h.b, h.c, h.d, h.e), h.a, S(30, h.b), h.c, h.d) == Round(t, l, h)
  {
    hide F, K, S, Mix, StepSum, Sum;
    MixIsF(t, h.b, h.c, h.d);
    StepSumIsSum(h.e, F(t, h.b, h.c, h.d), l, K(t), S(5, h.a));
  }

  // ----- one block -----

  /** The registers as a step names them when the first it mentions is number `q`. */
  ghost function From(r: seq<bv32>, q: int): Words
    requires |r| == 5 && 0 <= q < 5
  {
    match q
    case 0 => Words(r[0], r[1], r[2], r[3], r[4])
    case 1 => Words(r[1], r[2], r[3], r[4], r[0])
    case 2 => Words(r[2], r[3], r[4], r[0], r[1])
    case 3 => Words(r[3], r[4], r[0], r[1], r[2])
    case _ => Words(r[4], r[0], r[1], r[2], r[3])
  }

  /** The number of the register that step `t` mentions first: one less every step. */
  function First(t: nat): (q: int)
    ensures 0 <= q < 5
  {
    if t % 5 == 0 then 0 else 5 - t % 5
  }

  ghost function Named(r: seq<bv32>, t: nat): Words
    requires |r| == 5
  {
    From(r, First(t))
  }

  lemma NamedParts(r: seq<bv32>, t: nat)
    requires |r| == 5
    ensures var v := First(t);
            0 <= v < 5 && Named(r, t) == Words(r[v], r[(v + 1) % 5], r[(v + 2) % 5], r[(v + 3) % 5], r[(v + 4) % 5])
  {
    var v := First(t);
    hide First;
    if v == 0 {} else if v == 1 {} else if v == 2 {} else if v == 3 {} else {}
  }

  lemma StepRotates(r: seq<bv32>, t: nat, z: bv32, w: bv32)
    requires |r| == 5
    ensures Named(r[(First(t) + 4) % 5 := z][(First(t) + 1) % 5 := w], t + 1)
            == Words(z, Named(r, t).a, w, Named(r, t).c, Named(r, t).d)
  {
    var q := First(t);
    assert First(t + 1) == if q == 0 then 4 else q - 1;
    hide First;
    if q == 0 {} else if q == 1 {} else if q == 2 {} else if q == 3 {} else {}
  }

  lemma NamedAtEnds(r: seq<bv32>)
    requires |r| == 5
    ensures Named(r, 0) == Named(r, 80) == Words(r[0], r[1], r[2], r[3], r[4])
  {
  }

  /** `blk`: the next word of the circular schedule. */
  function Blk(l: seq<bv32>, i: nat): bv32
    requires |l| == 16
  {
    S(1, Xor4(l[(i + 13) % 16], l[(i + 8) % 16], l[(i + 2) % 16], l[i % 16]))
  }

  /** After `t` steps the sixteen slots hold the last sixteen words of the schedule, or words not yet read. */
  ghost predicate Circular(bigEndian: bool, block: seq<bv8>, l: seq<bv32>, t: nat)
    requires |block| == 64
  {
    && |l| == 16
    && (forall k {:trigger W(block, k)} :: 0 <= k < t <= k + 16 ==> l[k % 16] == W(block, k))
    && (forall k :: t <= k < 16 ==> l[k] == Load(bigEndian, block, 4 * k))
  }

  lemma CircularFirst(bigEndian: bool, block: seq<bv8>, l: seq<bv32>, t: nat)
    requires |block| == 64 && Circular(bigEndian, block, l, t) && t < 16
    ensures Blk0(bigEndian, l[t]) == W(block, t)
    ensures Circular(bigEndian, block, l[t := Blk0(bigEndian, l[t])], t + 1)
  {
    hide Load, Blk0, WordAt, W;
    Blk0IsWordAt(bigEndian, block, 4 * t);
    EarlyWord(block, t);
    var l' := l[t := Blk0(bigEndian, l[t])];
    forall k {:trigger W(block, k)} | 0 <= k < t + 1 <= k + 16
      ensures l'[k % 16] == W(block, k)
    {
      assert k % 16 == k;
    }
  }

  lemma EarlyWord(block: seq<bv8>, t: nat)
    requires |block| == 64 && t < 16
    ensures W(block, t) == WordAt(block, 4 * t)
  {
  }

  lemma BlkIsNextWord(bigEndian: bool, block: seq<bv8>, l: seq<bv32>, t: nat)
    requires |block| == 64 && Circular(bigEndian, block, l, t) && 16 <= t
    ensures Blk(l, t) == W(block, t)
  {
    hide Load, S, Xor4;
    assert (t + 13) % 16 == (t - 3) % 16 && (t + 8) % 16 == (t - 8) % 16;
    assert (t + 2) % 16 == (t - 14) % 16 && t % 16 == (t - 16) % 16;
    var w3, w8, w14, w16 := W(block, t - 3), W(block, t - 8), W(block, t - 14), W(block, t - 16);
  }

  lemma CircularNext(bigEndian: bool, block: seq<bv8>, l: seq<bv32>, t: nat)
    requires |block| == 64 && Circular(bigEndian, block, l, t) && 16 <= t
    ensures Circular(bigEndian, block, l[t % 16 := Blk(l, t)], t + 1)
  {
    hide Load, Blk, W;
    BlkIsNextWord(bigEndian, block, l, t);
    forall k {:trigger W(block, k)} | 0 <= k < t + 1 <= k + 16
      ensures l[t % 16 := Blk(l, t)][k % 16] == W(block, k)
    {
    }
  }

  /** `SHA1Transform`: 80 steps over rotated registers and a circular workspace. */
  method Transform(bigEndian: bool, state: Words, buffer: seq<bv8>) returns (result: Words)
    requires |buffer| == 64
    ensures result == Compress(state, buffer)
  {
    hide Load, Blk, Blk0, W, S, Accumulate, Round, Circular, Add, WordAt, Named;
    var l := seq(16, i requires 0 <= i < 16 => Load(bigEndian, buffer, 4 * i));
    WorkspaceLoaded(bigEndian, buffer, l);
    var r := [state.a, state.b, state.c, state.d, state.e];
    NamedAtEnds(r);
    for t := 0 to 80
      invariant Circular(bigEndian, buffer, l, t)
      invariant |l| == 16 && |r| == 5
      invariant Named(r, t) == Rounds(buffer, state, t)
    {
      var w;
      if t < 16 {
        CircularFirst(bigEndian, buffer, l, t);
        w := Blk0(bigEndian, l[t]);
      } else {
        BlkIsNextWord(bigEndian, buffer, l, t);
        CircularNext(bigEndian, buffer, l, t);
        w := Blk(l, t);
      }
      l := l[t % 16 := w];
      r := Step(r, t, w);
    }
    NamedAtEnds(r);
    result := Add(state, Words(r[0], r[1], r[2], r[3], r[4]));
  }

  /** One of the macros R0 to R4. */
  method Step(r0: seq<bv32>, t: nat, l: bv32) returns (r: seq<bv32>)
    requires |r0| == 5 && t < 80
    ensures |r| == 5 && Named(r, t + 1) == Round(t, l, Named(r0, t))
  {
    hide S, Accumulate, Round, Named, First;
    NamedParts(r0, t);
    var v := First(t);
    var w, x, y, z := (v + 1) % 5, (v + 2) % 5, (v + 3) % 5, (v + 4) % 5;
    AccumulateIsRound(t, l, Named(r0, t));
    StepRotates(r0, t, Accumulate(t, l, r0[v], r0[w], r0[x], r0[y], r0[z]), S(30, r0[w]));
    r := r0[z := Accumulate(t, l, r0[v], r0[w], r0[x], r0[y], r0[z])][w := S(30, r0[w])];
  }

  lemma WorkspaceLoaded(bigEndian: bool, block: seq<bv8>, l: seq<bv32>)
    requires |block| == 64 && |l| == 16 && forall i :: 0 <= i < 16 ==> l[i] == Load(bigEndian, block, 4 * i)
    ensures Circular(bigEndian, block, l, 0)
  {
    hide Load;
  }

  // ----- the stream -----

  const WORD := 0x1_0000_0000

  lemma {:induction false} DigestedAppend(h: Words, bytes: seq<bv8>, block: seq<bv8>)
    requires |bytes| % 64 == 0 && |block| == 64
    ensures Digested(h, bytes + block) == Compress(Digested(h, bytes), block)
    decreases |bytes|
  {
    hide Compress;
    if |bytes| == 0 {
      assert bytes + block == block && block[..64] == block;
      assert Digested(Compress(h, block), block[64..]) == Compress(h, block);
    } else {
      DigestedAppend(Compress(h, bytes[..64]), bytes[64..], block);
      assert (bytes + block)[..64] == bytes[..64] && (bytes + block)[64..] == bytes[64..] + block;
    }
  }

  /** The part of a message that makes up whole blocks. */
  ghost function Whole(m: seq<bv8>): seq<bv8> {
    m[..|m| - |m| % 64]
  }

  /** Bits counted in two words, modulo 2^64. */
  ghost predicate CountsBits(count0: int, count1: int, bytes: nat) {
    0 <= count0 < WORD && 0 <= count1 < WORD && count1 * WORD + count0 == (8 * bytes) % (WORD * WORD)
  }

  /** A carry out of the low word is seen as a sum smaller than its addend. */
  lemma TwoWordSum(count0: int, count1: int, low: int, high: int)
    requires 0 <= count0 < WORD && 0 <= count1 < WORD && 0 <= low < WORD && 0 <= high < WORD
    ensures var c0 := (count0 + low) % WORD;
            var carried := if c0 < low then (count1 + 1) % WORD else count1;
            var c1 := (carried + high) % WORD;
            && 0 <= c1 < WORD && 0 <= c0 < WORD
            && exists q :: c1 * WORD + c0 + q * (WORD * WORD) == (count1 + high) * WORD + count0 + low
  {
    var sum := count0 + low;
    var carry := if sum < WORD then 0 else 1;
    assert sum % WORD == sum - carry * WORD;
    var total := count1 + carry + high;
    var carried := (count1 + carry) % WORD;
    assert (carried + high) % WORD == total % WORD;
    var q := total / WORD;
    assert (total % WORD) * WORD + sum % WORD + q * (WORD * WORD) == (count1 + high) * WORD + count0 + low;
  }

  lemma LowWord(a: int, b: int, q: int)
    requires 0 <= a < WORD && b == q * WORD + a
    ensures b % WORD == a && b / WORD == q
  {
  }

  lemma LowTwoWords(a: int, b: int, q: int)
    requires 0 <= a < WORD * WORD && b == q * (WORD * WORD) + a
    ensures b % (WORD * WORD) == a
  {
  }

  /** The two-word counter of `internal_update`. */
  lemma CounterAdvances(count0: int, count1: int, bytes: nat, len: nat)
    requires CountsBits(count0, count1, bytes) && len < WORD
    ensures var added := (len * 8) % WORD;
            var c0 := (count0 + added) % WORD;
            var carried := if c0 < added then (count1 + 1) % WORD else count1;
            CountsBits(c0, (carried + len / 0x2000_0000) % WORD, bytes + len)
  {
    var high, low := len / 0x2000_0000, (len % 0x2000_0000) * 8;
    assert len * 8 == high * WORD + low;
    assert (len * 8) % WORD == low;
    TwoWordSum(count0, count1, low, high);
    var c0 := (count0 + low) % WORD;
    var carried := if c0 < low then (count1 + 1) % WORD else count1;
    var c1 := (carried + high) % WORD;
    var q :| c1 * WORD + c0 + q * (WORD * WORD) == (count1 + high) * WORD + count0 + low;
    var p := (8 * bytes) / (WORD * WORD);
    LowTwoWords(c1 * WORD + c0, 8 * (bytes + len), p + q);
  }

  lemma BitsToBytes(bits: int, bytes: int, y: int)
    requires bits == 8 * (bytes - 64 * y)
    ensures (bits / 8) % 64 == bytes % 64
  {
    assert bits / 8 == bytes - 64 * y;
  }

  lemma CounterPosition(count0: int, count1: int, bytes: nat)
    requires CountsBits(count0, count1, bytes)
    ensures (count0 / 8) % 64 == bytes % 64
  {
    var p := (8 * bytes) / (WORD * WORD);
    var y := count1 * (WORD / 512) + p * ((WORD / 512) * WORD);
    BitsToBytes(count0, bytes, y);
  }

  lemma WholeBlocks(n: nat)
    ensures (n - n % 64) % 64 == 0 && (n + (64 - n % 64)) % 64 == 0
  {
    assert n - n % 64 == 64 * (n / 64) && n + (64 - n % 64) == 64 * (n / 64 + 1);
  }

  /** Completing the `k` buffered bytes at the end of `m` makes the next block. */
  lemma FirstBlock(m: seq<bv8>, k: nat, head: seq<bv8>)
    requires k <= |m| && (|m| - k) % 64 == 0 && |head| == 64 - k
    ensures Digested(INITIAL, m + head) == Compress(Digested(INITIAL, m[..|m| - k]), m[|m| - k..] + head)
  {
    hide Digested, Compress;
    var whole, tail := m[..|m| - k], m[|m| - k..];
    DigestedAppend(INITIAL, whole, tail + head);
    assert whole + (tail + head) == m + head;
  }

  lemma NextBlock(m: seq<bv8>, data: seq<bv8>, i: nat)
    requires i + 64 <= |data| && (|m| + i) % 64 == 0
    ensures Digested(INITIAL, m + data[..i + 64]) == Compress(Digested(INITIAL, m + data[..i]), data[i..i + 64])
  {
    hide Digested, Compress;
    DigestedAppend(INITIAL, m + data[..i], data[i..i + 64]);
    assert m + data[..i] + data[i..i + 64] == m + data[..i + 64];
  }

  lemma TailAfterBlocks(m: seq<bv8>, data: seq<bv8>, i: nat)
    requires i <= |data| < i + 64 && (|m| + i) % 64 == 0
    ensures var n := |m + data|;
            n % 64 == |data| - i && Whole(m + data) == m + data[..i] && (m + data)[n - n % 64..] == data[i..]
  {
    var n := |m + data|;
    assert n == (|m| + i) + (|data| - i);
    assert n % 64 == |data| - i;
  }

  lemma TailWithoutBlock(m: seq<bv8>, data: seq<bv8>)
    requires |m| % 64 + |data| <= 63
    ensures var n := |m + data|;
            n % 64 == |m| % 64 + |data| && Whole(m + data) == Whole(m)
            && (m + data)[n - n % 64..] == m[|m| - |m| % 64..] + data
  {
    var k := |m| - |m| % 64;
    ShortTail(|m|, |data|);
    TailFrom(m, data, k);
  }

  lemma ShortTail(a: nat, b: nat)
    requires a % 64 + b <= 63
    ensures (a + b) % 64 == a % 64 + b
  {
    assert a + b == 64 * (a / 64) + (a % 64 + b);
  }

  lemma TailFrom(m: seq<bv8>, data: seq<bv8>, k: nat)
    requires k <= |m|
    ensures (m + data)[..k] == m[..k] && (m + data)[k..] == m[k..] + data
  {
  }

  /** The bytes of the two counter words are the 64-bit message length in bits. */
  lemma LengthBytes(c0: int, c1: int, bytes: nat, out: seq<bv8>)
    requires CountsBits(c0, c1, bytes) && |out| == 8
    requires forall i :: 0 <= i < 8 ==> out[i] == if i < 4 then ByteOf(c1, i) else ByteOf(c0, i - 4)
    ensures out == BigEndian64(8 * bytes)
  {
    hide ByteOf;
    var n := 8 * bytes;
    var p := n / (WORD * WORD);
    LowWord(c0, n, p * WORD + c1);
    LowWord(c1, n / WORD, p);
  }

  lemma ZerosMissing(n: nat, zeros: nat)
    requires zeros <= ZeroCount(n) && (n + 1 + zeros) % 64 != 56
    ensures zeros < ZeroCount(n)
  {
  }

  lemma ZerosDone(n: nat, zeros: nat)
    requires zeros <= ZeroCount(n) && (n + 1 + zeros) % 64 == 56
    ensures zeros == ZeroCount(n)
  {
    var k := ZeroCount(n);
    assert k - zeros < 64;
    assert (n + 1 + k) - (n + 1 + zeros) == k - zeros;
  }

  lemma PaddingComplete(m: seq<bv8>, padded: seq<bv8>, length: seq<bv8>)
    requires padded == m + [0x80] + seq(ZeroCount(|m|), _ => 0 as bv8) && length == BigEndian64(8 * |m|)
    ensures padded + length == Padded(m) && Whole(padded + length) == padded + length
  {
    hide BigEndian64;
    var n := |m| + 1 + ZeroCount(|m|);
    assert |padded + length| == n + 8 && n == 64 * (n / 64) + 56;
  }

  /**
    The 32-bit sums that `internal_update` compares do not wrap: only in the last 63 lengths below 2 to the 32 they
    may.
   */
  ghost predicate SumsFit(j: int, len: int) {
    j + len < WORD && len - (j + len) % 64 + 63 < WORD
  }

  /** Position `i` of the input ends a block, and the sums up to it do not wrap. */
  ghost predicate Aligned(bytes: nat, len: int, i: int) {
    0 <= i <= len - (bytes % 64 + len) % 64 && (bytes + i) % 64 == 0
  }

  lemma GuardFits(bytes: nat, len: int, i: int)
    requires SumsFit(bytes % 64, len) && Aligned(bytes, len, i)
    ensures (i + 63) % WORD == i + 63
  {
  }

  lemma NextAligned(bytes: nat, len: int, i: int)
    requires Aligned(bytes, len, i) && i + 63 < len
    ensures Aligned(bytes, len, i + 64)
  {
    var a, b, j := (bytes + i) / 64, bytes / 64, bytes % 64;
    assert j + i == 64 * (a - b);
    assert (j + len) % 64 == (len - i) % 64;
  }

  lemma FirstAligned(bytes: nat, len: int)
    requires bytes % 64 + len > 63
    ensures Aligned(bytes, len, 64 - bytes % 64)
  {
    var j := bytes % 64;
    assert bytes + (64 - j) == 64 * (bytes / 64 + 1);
    assert (j + len) % 64 == (j + len) - 64 * ((j + len) / 64);
  }

  lemma AlignedIs(bytes: nat, len: int, i: int)
    requires Aligned(bytes, len, i)
    ensures 0 <= i <= len && (bytes + i) % 64 == 0
  {
  }

  class Context {
    var state: Words
    var count0: int
    var count1: int
    const buffer: array<bv8>

    /** The context has taken in exactly message `m`. */
    ghost predicate Absorbed(m: seq<bv8>)
      reads this, buffer
    {
      && buffer.Length == 64
      && CountsBits(count0, count1, |m|)
      && state == Digested(INITIAL, Whole(m))
      && buffer[..|m| % 64] == m[|m| - |m| % 64..]
    }

    constructor ()
      ensures Absorbed([]) && fresh(buffer)
    {
      state := INITIAL;
      count0, count1 := 0, 0;
      buffer := new bv8[64];
    }

    /** Adds `len` bytes to the two-word bit count and returns the fill of the buffer before. */
    method AdvanceCount(len: nat, ghost bytes: nat) returns (j: nat)
      requires CountsBits(count0, count1, bytes) && len < WORD
      modifies this`count0, this`count1
      ensures CountsBits(count0, count1, bytes + len) && j == bytes % 64
    {
      CounterPosition(count0, count1, bytes);
      CounterAdvances(count0, count1, bytes, len);
      j := (count0 / 8) % 64;
      var added := (len * 8) % WORD;
      count0 := (count0 + added) % WORD;
      if count0 < added {
        count1 := (count1 + 1) % WORD;
      }
      count1 := (count1 + len / 0x2000_0000) % WORD;
    }

    /** `internal_update`: fills the buffer, hashes whole blocks straight from the input, keeps the rest. */
    method Update(bigEndian: bool, data: seq<bv8>, ghost m: seq<bv8>)
      requires Absorbed(m) && SumsFit(|m| % 64, |data|)
      modifies this`state, this`count0, this`count1, buffer
      ensures Absorbed(m + data)
    {
      hide Digested, Compress, CountsBits, Whole;
      var len := |data|;
      var j := AdvanceCount(len, |m|);
      var i := 0;
      if (j + len) % WORD > 63 {
        i := HashBlocks(bigEndian, data, j, m);
        TailAfterBlocks(m, data, i);
        j := 0;
      } else {
        TailWithoutBlock(m, data);
      }
      ghost var before := buffer[..j];
      CopyIn(j, data[i..]);
      assert buffer[..j + (len - i)] == before + data[i..];
    }

    /** The blocks completed by `data`; returns how much of it they use up. */
    method HashBlocks(bigEndian: bool, data: seq<bv8>, j: nat, ghost m: seq<bv8>) returns (i: nat)
      requires buffer.Length == 64 && j == |m| % 64 && j + |data| > 63 && SumsFit(j, |data|)
      requires state == Digested(INITIAL, Whole(m)) && buffer[..j] == m[|m| - j..]
      modifies this`state, buffer
      ensures i <= |data| < i + 64 && (|m| + i) % 64 == 0
      ensures state == Digested(INITIAL, m + data[..i])
    {
      hide Digested, Compress, SumsFit, Aligned;
      WholeBlocks(|m|);
      FirstAligned(|m|, |data|);
      i := 64 - j;
      CopyIn(j, data[..i]);
      FirstBlock(m, j, data[..i]);
      assert buffer[..] == m[|m| - j..] + data[..i];
      state := Transform(bigEndian, state, buffer[..]);
      AlignedIs(|m|, |data|, i);
      GuardFits(|m|, |data|, i);
      while (i + 63) % WORD < |data|
        invariant 0 <= i <= |data| && Aligned(|m|, |data|, i) && (i + 63) % WORD == i + 63
        invariant state == Digested(INITIAL, m + data[..i])
      {
        AlignedIs(|m|, |data|, i);
        NextBlock(m, data, i);
        NextAligned(|m|, |data|, i);
        state := Transform(bigEndian, state, data[i..i + 64]);
        i := i + 64;
        AlignedIs(|m|, |data|, i);
        GuardFits(|m|, |data|, i);
      }
      AlignedIs(|m|, |data|, i);
    }

    /** `memcpy` into the buffer. */
    method CopyIn(at: nat, bytes: seq<bv8>)
      requires at + |bytes| <= buffer.Length
      modifies buffer
      ensures buffer[..] == old(buffer[..at]) + bytes + old(buffer[at + |bytes|..])
    {
      forall k | 0 <= k < |bytes| {
        buffer[at + k] := bytes[k];
      }
    }

    /** `SHA1_Final`: pads through the same update routine and reads off the digest. */
    method Final(bigEndian: bool, ghost m: seq<bv8>) returns (digest: seq<bv8>)
      requires Absorbed(m)
      modifies this`state, this`count0, this`count1, buffer
      ensures digest == Sha1(m)
    {
      hide Digested, Padded, BigEndian64, ByteOf;
      var c0, c1 := count0, count1;
      var finalCount := seq(8, i requires 0 <= i < 8 => if i < 4 then ByteOf(c1, i) else ByteOf(c0, i - 4));
      LengthBytes(c0, c1, |m|, finalCount);
      Update(bigEndian, [0x80], m);
      ghost var padded, zeros := m + [0x80], 0;
      CounterPosition(count0, count1, |padded|);
      while (count0 / 8) % 64 != 56
        invariant 0 <= zeros <= ZeroCount(|m|) && |padded| == |m| + 1 + zeros
        invariant padded == m + [0x80] + seq(zeros, _ => 0 as bv8)
        invariant Absorbed(padded) && (count0 / 8) % 64 == |padded| % 64
        decreases ZeroCount(|m|) - zeros
      {
        ZerosMissing(|m|, zeros);
        Update(bigEndian, [0], padded);
        padded, zeros := padded + [0], zeros + 1;
        CounterPosition(count0, count1, |padded|);
      }
      ZerosDone(|m|, zeros);
      Update(bigEndian, finalCount, padded);
      PaddingComplete(m, padded, finalCount);
      var h := state;
      digest := Bytes(h);
    }
  }

  /** The first `n` chunks as one message. */
  ghost function Joined(chunks: seq<seq<bv8>>, n: nat): seq<bv8>
    requires n <= |chunks|
  {
    if n == 0 then [] else Joined(chunks, n - 1) + chunks[n - 1]
  }

  /** Init, any number of updates, final: the digest depends only on the bytes, not on how they arrived. */
  method DigestOf(bigEndian: bool, chunks: seq<seq<bv8>>) returns (digest: seq<bv8>)
    requires forall i :: 0 <= i < |chunks| ==> SumsFit(|Joined(chunks, i)| % 64, |chunks[i]|)
    ensures digest == Sha1(Joined(chunks, |chunks|))
  {
    hide Sha1Spec.Sha1, Context.Absorbed;
    var ctx := new Context();
    for i := 0 to |chunks|
      invariant fresh(ctx) && fresh(ctx.buffer) && ctx.Absorbed(Joined(chunks, i))
    {
      ctx.Update(bigEndian, chunks[i], Joined(chunks, i));
    }
    digest := ctx.Final(bigEndian, Joined(chunks, |chunks|));
  }
}
