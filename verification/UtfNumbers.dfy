/**
 * The encodings as their standards put them, in integer arithmetic on the numbers that words stand for:
 * UTF-8 by section 3 of RFC 3629, UTF-16 by section 2.1 of RFC 2781.
 */
module UtfNumbers {
  import opened Unicode

  /** The number whose binary digits are the bits of `x`. */
  ghost function Number(x: bv32): nat
    decreases x
  {
    if x == 0 then 0 else 2 * Number(x >> 1) + (if x & 1 == 1 then 1 else 0)
  }

  ghost function Byte(b: bv8): nat {
    Number(b as bv32)
  }

  ghost function Unit(b: bv16): nat {
    Number(b as bv32)
  }

  ghost function Numbers8(b: seq<bv8>): (r: seq<nat>)
    ensures |r| == |b| && forall i :: 0 <= i < |b| ==> r[i] == Byte(b[i])
  {
    seq(|b|, i requires 0 <= i < |b| => Byte(b[i]))
  }

  ghost function Numbers16(b: seq<bv16>): (r: seq<nat>)
    ensures |r| == |b| && forall i :: 0 <= i < |b| ==> r[i] == Unit(b[i])
  {
    seq(|b|, i requires 0 <= i < |b| => Unit(b[i]))
  }

  /** The bytes of character number `n`. */
  ghost function Rfc3629(n: nat): seq<nat> {
    if n < 0x80 then [n]
    else if n < 0x800 then [0xC0 + n / 64, 0x80 + n % 64]
    else if n < 0x10000 then [0xE0 + n / 4096, 0x80 + n / 64 % 64, 0x80 + n % 64]
    else [0xF0 + n / 262144, 0x80 + n / 4096 % 64, 0x80 + n / 64 % 64, 0x80 + n % 64]
  }

  /** The units of character number `n`. */
  ghost function Rfc2781(n: nat): seq<nat> {
    if n < 0x10000 then [n] else [0xD800 + (n - 0x10000) / 0x400, 0xDC00 + (n - 0x10000) % 0x400]
  }

  // ----- numbers and bits -----

  ghost function Int(x: bv32): nat {
    x as nat
  }

  /** For words of at most ten bits this is the number that a conversion gives. */
  lemma {:induction false} NumberIsInt(x: bv32)
    requires x < 0x400
    ensures Number(x) == Int(x)
    decreases x
  {
    hide Int;
    if x == 0 {
      IntOfNone();
    } else {
      SmallerHalf(x);
      NumberIsInt(x >> 1);
      HalfInt(x);
    }
  }

  lemma IntOfNone()
    ensures Int(0) == 0
  {
  }

  lemma SmallerHalf(x: bv32)
    requires 0 < x < 0x400
    ensures x >> 1 < x && x >> 1 < 0x400
  {
  }

  lemma HalfInt(x: bv32)
    requires x < 0x400
    ensures Int(x) == 2 * Int(x >> 1) + (if x & 1 == 1 then 1 else 0)
  {
  }

  lemma Split1(x: bv32)
    ensures Number(x) == 2 * Number(x >> 1) + Number(x & 1) && Number(x & 1) < 2
  {
    LowBit(x);
    assert Number(0) == 0 && Number(1) == 1;
  }

  lemma LowBit(x: bv32)
    ensures (x & 1 == 0 || x & 1 == 1) && (x == 0 ==> x >> 1 == 0) && (1 as bv32) >> 1 == 0
  {
  }

  lemma Bits2(x: bv32)
    ensures (x >> 1) >> 1 == x >> 2 && (x & 3) >> 1 == (x >> 1) & 1 && (x & 3) & 1 == x & 1
  {
  }

  lemma Split2(x: bv32)
    ensures Number(x) == 4 * Number(x >> 2) + Number(x & 3) && Number(x & 3) < 4
  {
    hide Number;
    Split1(x);
    Split1(x >> 1);
    Split1(x & 3);
    Bits2(x);
  }

  lemma Bits4(x: bv32)
    ensures (x >> 2) >> 2 == x >> 4 && (x & 15) >> 2 == (x >> 2) & 3 && (x & 15) & 3 == x & 3
  {
  }

  lemma Split4(x: bv32)
    ensures Number(x) == 16 * Number(x >> 4) + Number(x & 15) && Number(x & 15) < 16
  {
    hide Number;
    Split2(x);
    Split2(x >> 2);
    Split2(x & 15);
    Bits4(x);
  }

  lemma Bits6(x: bv32)
    ensures (x >> 4) >> 2 == x >> 6 && (x & 63) >> 4 == (x >> 4) & 3 && (x & 63) & 15 == x & 15
  {
  }

  lemma Split6(x: bv32)
    ensures Number(x) == 64 * Number(x >> 6) + Number(x & 63) && Number(x & 63) < 64
  {
    hide Number;
    Split4(x);
    Split2(x >> 4);
    Split4(x & 63);
    Bits6(x);
  }

  lemma Bits10(x: bv32)
    ensures (x >> 6) >> 4 == x >> 10 && (x & 0x3FF) >> 6 == (x >> 6) & 15 && (x & 0x3FF) & 63 == x & 63
  {
  }

  lemma Split10(x: bv32)
    ensures Number(x) == 0x400 * Number(x >> 10) + Number(x & 0x3FF) && Number(x & 0x3FF) < 0x400
  {
    hide Number;
    Split6(x);
    Split4(x >> 6);
    Split6(x & 0x3FF);
    Bits10(x);
  }

  lemma Bits16(x: bv32)
    ensures (x >> 10) >> 6 == x >> 16 && (x & 0xFFFF) >> 10 == (x >> 10) & 63 && (x & 0xFFFF) & 0x3FF == x & 0x3FF
  {
  }

  lemma Split16(x: bv32)
    ensures Number(x) == 0x10000 * Number(x >> 16) + Number(x & 0xFFFF)
  {
    hide Number;
    Split10(x);
    Split6(x >> 10);
    Split10(x & 0xFFFF);
    Bits16(x);
  }

  /** Taking off the last six bits is division by 64. */
  lemma RestDivides(ch: bv32)
    ensures Number(Rest(ch)) == Number(ch) / 64 && Number(ch & 63) == Number(ch) % 64
  {
    hide Number;
    Split6(ch);
  }

  // ----- UTF-8 -----

  lemma TailBits(c: bv32)
    ensures (Tail(c) as bv32) >> 6 == 2 && (Tail(c) as bv32) & 63 == c & 63
  {
  }

  lemma TailNumber(c: bv32)
    ensures Byte(Tail(c)) == 0x80 + Number(c) % 64
  {
    hide Number, Tail;
    TailBits(c);
    Split6(Tail(c) as bv32);
    RestDivides(c);
    NumberIsInt(2);
  }

  /** What the first byte of a character of `n` bytes adds to the bits that it carries. */
  ghost function Lead(n: nat): nat {
    if n == 1 then 0 else if n == 2 then 0xC0 else if n == 3 then 0xE0 else 0xF0
  }

  /** A first byte is the mark of its length plus the bits that are left. */
  lemma HeadNumber(c: bv32, n: nat)
    requires 1 <= n <= 4 && c < (if n == 1 then 0x80 else if n == 2 then 0x20 else if n == 3 then 0x10 else 0x8)
    ensures Byte(Head(c, n)) == Lead(n) + Number(c)
  {
    hide Number, Int, Head;
    HeadInt(c, n);
    NumberIsInt(c);
    NumberIsInt(Head(c, n) as bv32);
  }

  lemma HeadInt(c: bv32, n: nat)
    requires 1 <= n <= 4 && c < (if n == 1 then 0x80 else if n == 2 then 0x20 else if n == 3 then 0x10 else 0x8)
    ensures Int(Head(c, n) as bv32) == Lead(n) + Int(c)
    ensures Head(c, n) as bv32 < 0x400
  {
  }

  lemma IntBelow(x: bv32)
    requires x < 0x400
    ensures (Int(x) < 2 <==> x < 2) && (Int(x) < 16 <==> x < 16) && (Int(x) < 32 <==> x < 32)
  {
  }

  lemma Below(ch: bv32)
    requires ch <= MAX_LEGAL
    ensures (ch < 0x80 <==> ch < 0x800 && Rest(ch) < 2) && (ch < 0x800 <==> ch < 0x10000 && Rest(ch) < 32)
    ensures ch < 0x10000 <==> Rest(Rest(ch)) < 16
    ensures Rest(Rest(ch)) < 0x400 && (ch < 0x10000 ==> Rest(ch) < 0x400)
  {
  }

  /** The limits of the lengths, for the words and for their numbers. */
  lemma Bounds(ch: bv32)
    requires ch <= MAX_LEGAL
    ensures (ch < 0x80 <==> Number(ch) < 0x80) && (ch < 0x800 <==> Number(ch) < 0x800)
    ensures ch < 0x10000 <==> Number(ch) < 0x10000
  {
    hide Number, Int, Rest;
    Below(ch);
    RestDivides(ch);
    RestDivides(Rest(ch));
    NumberIsInt(Rest(Rest(ch)));
    IntBelow(Rest(Rest(ch)));
    if ch < 0x10000 {
      NumberIsInt(Rest(ch));
      IntBelow(Rest(ch));
    }
  }

  /** UTF-8 as the standard defines it, for every code point. */
  lemma EncodesByRfc3629(ch: bv32)
    requires ch <= MAX_LEGAL
    ensures Numbers8(Encode8(ch)) == Rfc3629(Number(ch))
  {
    hide Number, Numbers8, Encode8, Rest, Rfc3629;
    Bounds(ch);
    if ch < 0x80 {
      Numbers1(ch);
    } else if ch < 0x800 {
      Numbers2(ch);
    } else if ch < 0x10000 {
      Numbers3(ch);
    } else {
      Numbers4(ch);
    }
  }

  lemma Numbers1(ch: bv32)
    requires ch < 0x80 && Number(ch) < 0x80
    ensures Numbers8(Encode8(ch)) == Rfc3629(Number(ch))
  {
    hide Number, Numbers8, Byte, Head, Tail, Rest;
    HeadNumber(ch, 1);
  }

  lemma Numbers2(ch: bv32)
    requires 0x80 <= ch < 0x800 && 0x80 <= Number(ch) < 0x800
    ensures Numbers8(Encode8(ch)) == Rfc3629(Number(ch))
  {
    hide Number, Numbers8, Byte, Head, Tail, Rest;
    RestBounds(ch);
    RestDivides(ch);
    TailNumber(ch);
    HeadNumber(Rest(ch), 2);
  }

  lemma Numbers3(ch: bv32)
    requires 0x800 <= ch < 0x10000 && 0x800 <= Number(ch) < 0x10000
    ensures Numbers8(Encode8(ch)) == Rfc3629(Number(ch))
  {
    hide Number, Numbers8, Byte, Head, Tail, Rest;
    var ch1 := Rest(ch);
    RestBounds(ch);
    RestDivides(ch);
    RestDivides(ch1);
    TailNumber(ch);
    TailNumber(ch1);
    HeadNumber(Rest(ch1), 3);
    Quotients(Number(ch));
    assert Encode8(ch) == [Head(Rest(ch1), 3), Tail(ch1), Tail(ch)];
  }

  lemma Numbers4(ch: bv32)
    requires 0x10000 <= ch <= MAX_LEGAL && Number(ch) >= 0x10000
    ensures Numbers8(Encode8(ch)) == Rfc3629(Number(ch))
  {
    hide Number, Numbers8, Byte, Head, Tail, Rest;
    var ch1 := Rest(ch);
    var ch2 := Rest(ch1);
    RestBounds(ch);
    RestDivides(ch);
    RestDivides(ch1);
    RestDivides(ch2);
    TailNumber(ch);
    TailNumber(ch1);
    TailNumber(ch2);
    HeadNumber(Rest(ch2), 4);
    Quotients(Number(ch));
    assert Encode8(ch) == [Head(Rest(ch2), 4), Tail(ch2), Tail(ch1), Tail(ch)];
  }

  lemma Quotients(n: nat)
    ensures n / 64 / 64 == n / 4096 && n / 4096 / 64 == n / 262144
  {
  }

  lemma RestBounds(ch: bv32)
    ensures ch < 0x800 ==> Rest(ch) < 0x20
    ensures ch < 0x10000 ==> Rest(Rest(ch)) < 0x10
    ensures ch <= MAX_LEGAL ==> Rest(Rest(Rest(ch))) < 0x8
  {
  }

  // ----- decoding -----

  /**
   * Bytes that pass the legality test are the encoding of the scalar value they are decoded to exactly if the
   * second is a continuation byte; after the first bytes 0xED and 0xF4 the test does not look for that.
   */
  lemma DecodesEncodings(b: seq<bv8>)
    requires Legal(b) && Trailing(b[0]) == |b| - 1
    ensures Scalar(Decode8(b)) && Encode8(Decode8(b)) == b <==> |b| == 1 || Continues(b[1])
  {
    hide Decode8, Encode8, Scalar;
    if |b| == 1 || Continues(b[1]) {
      ContinuedIsEncoding(b);
    } else {
      SecondOfEncoding(Decode8(b));
    }
  }

  lemma SecondOfEncoding(ch: bv32)
    ensures |Encode8(ch)| == 1 || Continues(Encode8(ch)[1])
  {
    hide Tail, Head, Rest;
    TailContinues(ch);
    TailContinues(Rest(ch));
    TailContinues(Rest(Rest(ch)));
  }

  /** A letter in place of a continuation byte is accepted and makes another character. */
  lemma LetterAccepted()
    ensures var b: seq<bv8> := [0xED, 0x41, 0x80];
            Legal(b) && Trailing(b[0]) == 2 && !Continues(b[1]) && Decode8(b) == 0xC040 && Encode8(0xC040) != b
  {
    var b: seq<bv8> := [0xED, 0x41, 0x80];
    Gather3(0xED, 0x41, 0x80);
    DecodesEncodings(b);
  }

  lemma ContinuedIsEncoding(b: seq<bv8>)
    requires Legal(b) && Trailing(b[0]) == |b| - 1 && (|b| == 1 || Continues(b[1]))
    ensures Scalar(Decode8(b)) && Encode8(Decode8(b)) == b
  {
    hide Gathered, Joined, Minus, Encode8, Scalar;
    if |b| == 1 {
      assert b == [b[0]];
      Gather1(b[0]);
      Back1(b[0]);
    } else if |b| == 2 {
      assert b == [b[0], b[1]];
      Gather2(b[0], b[1]);
      Back2(b[0], b[1]);
    } else if |b| == 3 {
      assert b == [b[0], b[1], b[2]];
      Gather3(b[0], b[1], b[2]);
      Back3(b[0], b[1], b[2]);
    } else {
      assert b == [b[0], b[1], b[2], b[3]];
      Gather4(b[0], b[1], b[2], b[3]);
      Back4(b[0], b[1], b[2], b[3]);
    }
  }

  lemma Back1(a: bv8)
    requires a < 0x80
    ensures var ch := Minus(a as bv32, 0); Scalar(ch) && Encode8(ch) == [a]
  {
  }

  lemma Back2(a: bv8, b: bv8)
    requires 0xC2 <= a < 0xE0 && SecondOk(a, b)
    ensures var ch := Minus(Joined(a as bv32, b), 0x3080); Scalar(ch) && Encode8(ch) == [a, b]
  {
    hide Minus, Joined, Head, Tail, Rest;
    Bytes2(a, b, Minus(Joined(a as bv32, b), 0x3080));
  }

  lemma Bytes2(a: bv8, b: bv8, ch: bv32)
    requires 0xC2 <= a < 0xE0 && SecondOk(a, b) && ch == Minus(Joined(a as bv32, b), 0x3080)
    ensures 0x80 <= ch < 0x800 && Head(Rest(ch), 2) == a && Tail(ch) == b
  {
  }

  lemma Back3(a: bv8, b: bv8, c: bv8)
    requires 0xE0 <= a < 0xF0 && SecondOk(a, b) && Continues(b) && Continues(c)
    ensures var ch := Minus(Joined(Joined(a as bv32, b), c), 0xE2080); Scalar(ch) && Encode8(ch) == [a, b, c]
  {
    hide Minus, Joined, Head, Tail, Rest;
    Bytes3(a, b, c, Minus(Joined(Joined(a as bv32, b), c), 0xE2080));
  }

  lemma Bytes3(a: bv8, b: bv8, c: bv8, ch: bv32)
    requires 0xE0 <= a < 0xF0 && SecondOk(a, b) && Continues(b) && Continues(c)
    requires ch == Minus(Joined(Joined(a as bv32, b), c), 0xE2080)
    ensures 0x800 <= ch < 0x10000 && !Surrogate(ch)
    ensures Head(Rest(Rest(ch)), 3) == a && Tail(Rest(ch)) == b && Tail(ch) == c
  {
    hide Rest, Head, Tail, Minus, Joined, Surrogate, SecondOk, Continues;
    Range3(a, b, c, ch);
    Taken3(a, b, c, ch);
    HeadBack(a, 3, Rest(Rest(ch)));
    TailBack(b, Rest(ch));
    TailBack(c, ch);
  }

  lemma Range3(a: bv8, b: bv8, c: bv8, ch: bv32)
    requires 0xE0 <= a < 0xF0 && SecondOk(a, b) && Continues(c) && ch == Minus(Joined(Joined(a as bv32, b), c), 0xE2080)
    ensures 0x800 <= ch < 0x10000 && !Surrogate(ch)
  {
  }

  lemma Taken3(a: bv8, b: bv8, c: bv8, ch: bv32)
    requires 0xE0 <= a < 0xF0 && Continues(b) && Continues(c) && ch == Minus(Joined(Joined(a as bv32, b), c), 0xE2080)
    ensures Rest(Rest(ch)) == (a as bv32) & 0xF && Rest(ch) & 0x3F == (b as bv32) & 0x3F
    ensures ch & 0x3F == (c as bv32) & 0x3F
  {
  }

  lemma HeadBack(a: bv8, n: nat, x: bv32)
    requires n == 3 ==> 0xE0 <= a < 0xF0 && x == (a as bv32) & 0xF
    requires n == 4 ==> 0xF0 <= a < 0xF8 && x == (a as bv32) & 0x7
    requires n == 3 || n == 4
    ensures Head(x, n) == a
  {
  }

  lemma TailBack(b: bv8, x: bv32)
    requires Continues(b) && x & 0x3F == (b as bv32) & 0x3F
    ensures Tail(x) == b
  {
  }

  lemma Back4(a: bv8, b: bv8, c: bv8, d: bv8)
    requires 0xF0 <= a <= 0xF4 && SecondOk(a, b) && Continues(b) && Continues(c) && Continues(d)
    ensures var ch := Minus(Joined(Joined(Joined(a as bv32, b), c), d), 0x3C82080);
            Scalar(ch) && Encode8(ch) == [a, b, c, d]
  {
    hide Minus, Joined, Head, Tail, Rest;
    Bytes4(a, b, c, d, Minus(Joined(Joined(Joined(a as bv32, b), c), d), 0x3C82080));
  }

  lemma Bytes4(a: bv8, b: bv8, c: bv8, d: bv8, ch: bv32)
    requires 0xF0 <= a <= 0xF4 && SecondOk(a, b) && Continues(b) && Continues(c) && Continues(d)
    requires ch == Minus(Joined(Joined(Joined(a as bv32, b), c), d), 0x3C82080)
    ensures 0x10000 <= ch <= MAX_LEGAL
    ensures Head(Rest(Rest(Rest(ch))), 4) == a && Tail(Rest(Rest(ch))) == b && Tail(Rest(ch)) == c && Tail(ch) == d
  {
    hide Rest, Head, Tail, Minus, Joined, SecondOk, Continues;
    Range4(a, b, c, d, ch);
    Taken4(a, b, c, d, ch);
    HeadBack(a, 4, Rest(Rest(Rest(ch))));
    TailBack(b, Rest(Rest(ch)));
    TailBack(c, Rest(ch));
    TailBack(d, ch);
  }

  lemma Range4(a: bv8, b: bv8, c: bv8, d: bv8, ch: bv32)
    requires 0xF0 <= a <= 0xF4 && SecondOk(a, b) && Continues(c) && Continues(d)
    requires ch == Minus(Joined(Joined(Joined(a as bv32, b), c), d), 0x3C82080)
    ensures 0x10000 <= ch <= MAX_LEGAL
  {
  }

  lemma Taken4(a: bv8, b: bv8, c: bv8, d: bv8, ch: bv32)
    requires 0xF0 <= a < 0xF8 && Continues(b) && Continues(c) && Continues(d)
    requires ch == Minus(Joined(Joined(Joined(a as bv32, b), c), d), 0x3C82080)
    ensures Rest(Rest(Rest(ch))) == (a as bv32) & 0x7 && Rest(Rest(ch)) & 0x3F == (b as bv32) & 0x3F
    ensures Rest(ch) & 0x3F == (c as bv32) & 0x3F && ch & 0x3F == (d as bv32) & 0x3F
  {
  }

  // ----- UTF-16 -----

  /** UTF-16 as the standard defines it, for every code point. */
  lemma EncodesByRfc2781(ch: bv32)
    requires ch <= MAX_LEGAL
    ensures Numbers16(Encode16(ch)) == Rfc2781(Number(ch))
  {
    hide Number, HighHalf, LowHalf, Unit;
    Bounds(ch);
    if ch < 0x10000 {
      OneUnit(ch);
    } else {
      PlaneDown(ch);
      HalfNumbers(ch);
    }
  }

  lemma OneUnit(ch: bv32)
    requires ch < 0x10000
    ensures Unit((ch & 0xFFFF) as bv16) == Number(ch)
  {
    hide Number;
    assert (ch & 0xFFFF) as bv16 as bv32 == ch;
  }

  /** What is left of a code point beyond the basic plane. */
  ghost function Above(ch: bv32): bv32 {
    ch - 0x10000
  }

  lemma PlaneDown(ch: bv32)
    requires 0x10000 <= ch <= MAX_LEGAL
    ensures Number(Above(ch)) == Number(ch) - 0x10000
  {
    hide Number, Int, Above;
    Split16(ch);
    Split16(Above(ch));
    PlaneBits(ch);
    PlaneInts(ch >> 16, Above(ch) >> 16);
    NumberIsInt(ch >> 16);
    NumberIsInt(Above(ch) >> 16);
  }

  lemma PlaneBits(ch: bv32)
    requires 0x10000 <= ch <= MAX_LEGAL
    ensures Above(ch) & 0xFFFF == ch & 0xFFFF && 0 < ch >> 16 < 0x20 && Above(ch) >> 16 == (ch >> 16) - 1
  {
  }

  lemma PlaneInts(x: bv32, y: bv32)
    requires 0 < x < 0x20 && y == x - 1
    ensures Int(y) == Int(x) - 1
  {
  }

  lemma HalfNumbers(ch: bv32)
    requires 0x10000 <= ch <= MAX_LEGAL
    ensures Unit(HighHalf(ch)) == 0xD800 + Number(Above(ch)) / 0x400
    ensures Unit(LowHalf(ch)) == 0xDC00 + Number(Above(ch)) % 0x400
  {
    hide Number, Int, Above, HighHalf, LowHalf;
    Split10(Above(ch));
    Split10(HighHalf(ch) as bv32);
    Split10(LowHalf(ch) as bv32);
    HalfBits(ch);
    NumberIsInt(0x36);
    NumberIsInt(0x37);
    MarkInts();
  }

  lemma MarkInts()
    ensures Int(0x36) == 0x36 && Int(0x37) == 0x37
  {
  }

  lemma HalfBits(ch: bv32)
    requires 0x10000 <= ch <= MAX_LEGAL
    ensures (HighHalf(ch) as bv32) >> 10 == 0x36 && (HighHalf(ch) as bv32) & 0x3FF == Above(ch) >> 10
    ensures (LowHalf(ch) as bv32) >> 10 == 0x37 && (LowHalf(ch) as bv32) & 0x3FF == Above(ch) & 0x3FF
  {
  }
}
