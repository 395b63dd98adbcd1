/** Characters in UTF-8, UTF-16 and UTF-32, one at a time and in sequence. */
module Unicode {

  const MAX_LEGAL: bv32 := 0x10FFFF
  const REPLACEMENT: bv32 := 0xFFFD

  predicate High(ch: bv32) {
    0xD800 <= ch <= 0xDBFF
  }

  predicate Low(ch: bv32) {
    0xDC00 <= ch <= 0xDFFF
  }

  predicate Surrogate(ch: bv32) {
    0xD800 <= ch <= 0xDFFF
  }

  /** A Unicode scalar value. */
  predicate Scalar(ch: bv32) {
    ch <= MAX_LEGAL && !Surrogate(ch)
  }

  ghost predicate Scalars(text: seq<bv32>) {
    forall i :: 0 <= i < |text| ==> Scalar(text[i])
  }

  // ----- UTF-8 -----

  function Size8(ch: bv32): (n: nat)
    ensures 1 <= n <= 4
  {
    if ch < 0x80 then 1 else if ch < 0x800 then 2 else if ch < 0x10000 then 3 else 4
  }

  function Mark(n: nat): bv32 {
    if n == 1 then 0x00 else if n == 2 then 0xC0 else if n == 3 then 0xE0 else 0xF0
  }

  /** A byte after the first; the cast keeps the low eight bits. */
  function Tail(c: bv32): bv8 {
    ((c | 0x80) & 0xBF) as bv8
  }

  function Head(c: bv32, n: nat): bv8 {
    ((c | Mark(n)) & 0xFF) as bv8
  }

  /** The character without the six bits a byte takes. */
  function Rest(c: bv32): bv32 {
    c >> 6
  }

  function Encode8(ch: bv32): (r: seq<bv8>)
    ensures |r| == Size8(ch)
  {
    var ch1 := Rest(ch);
    var ch2 := Rest(ch1);
    match Size8(ch)
    case 1 => [Head(ch, 1)]
    case 2 => [Head(ch1, 2), Tail(ch)]
    case 3 => [Head(ch2, 3), Tail(ch1), Tail(ch)]
    case _ => [Head(Rest(ch2), 4), Tail(ch2), Tail(ch1), Tail(ch)]
  }

  /** How many bytes follow a first byte. */
  function Trailing(b: bv8): nat {
    if b < 0xC0 then 0 else if b < 0xE0 then 1 else if b < 0xF0 then 2 else if b < 0xF8 then 3 else if b < 0xFC then 4
        else 5
  }

  predicate Continues(b: bv8) {
    0x80 <= b <= 0xBF
  }

  /** The test on the second byte. */
  predicate SecondOk(first: bv8, second: bv8) {
    && second <= 0xBF
    && (if first == 0xE0 then second >= 0xA0
        else if first == 0xED then second <= 0x9F
        else if first == 0xF0 then second >= 0x90
        else if first == 0xF4 then second <= 0x8F
        else second >= 0x80)
  }

  /** Whether bytes whose number the first determines are taken for a character. */
  predicate Legal(b: seq<bv8>) {
    && 1 <= |b| <= 4
    && (|b| >= 4 ==> Continues(b[3]))
    && (|b| >= 3 ==> Continues(b[2]))
    && (|b| >= 2 ==> SecondOk(b[0], b[1]))
    && !(0x80 <= b[0] < 0xC2) && b[0] <= 0xF4
  }

  function Offset(extra: nat): bv32 {
    if extra == 0 then 0 else if extra == 1 then 0x3080 else if extra == 2 then 0xE2080 else 0x3C82080
  }

  function Joined(p: bv32, b: bv8): bv32 {
    (p << 6) + b as bv32
  }

  /** The bytes shifted together six bits apart. */
  function Gathered(b: seq<bv8>): bv32 {
    if b == [] then 0 else Joined(Gathered(b[..|b| - 1]), b[|b| - 1])
  }

  function Decode8(b: seq<bv8>): bv32
    requires b != []
  {
    Minus(Gathered(b), Offset(|b| - 1))
  }

  lemma Gather1(a: bv8)
    ensures Gathered([a]) == a as bv32
  {
    assert [a][..0] == [];
  }

  lemma Gather2(a: bv8, b: bv8)
    ensures Gathered([a, b]) == Joined(a as bv32, b)
  {
    hide Joined;
    Gather1(a);
    assert [a, b][..1] == [a];
  }

  lemma Gather3(a: bv8, b: bv8, c: bv8)
    ensures Gathered([a, b, c]) == Joined(Joined(a as bv32, b), c)
  {
    hide Joined;
    Gather2(a, b);
    assert [a, b, c][..2] == [a, b];
  }

  lemma Gather4(a: bv8, b: bv8, c: bv8, d: bv8)
    ensures Gathered([a, b, c, d]) == Joined(Joined(Joined(a as bv32, b), c), d)
  {
    hide Joined;
    Gather3(a, b, c);
    assert [a, b, c, d][..3] == [a, b, c];
  }

  function Plus(k: bv32, c: bv32): bv32 {
    k + c
  }

  function Minus(x: bv32, k: bv32): bv32 {
    x - k
  }

  // Each byte after the first adds six bits to what the bytes before it hold, and its mark to the offset.

  lemma Join2(c: bv32)
    requires c < 0x800
    ensures Minus(Joined(Plus(0xC0, Rest(c)), Tail(c)), 0x3080) == c
  {
  }

  lemma Join3a(c: bv32)
    requires c < 0x400
    ensures Joined(Plus(0xE0, Rest(c)), Tail(c)) == Plus(0x3880, c)
  {
  }

  lemma Join3b(c: bv32)
    requires c < 0x10000
    ensures Minus(Joined(Plus(0x3880, Rest(c)), Tail(c)), 0xE2080) == c
  {
  }

  lemma Join4a(c: bv32)
    requires c <= 0x10F
    ensures Joined(Plus(0xF0, Rest(c)), Tail(c)) == Plus(0x3C80, c)
  {
  }

  lemma Join4b(c: bv32)
    requires c <= 0x43FF
    ensures Joined(Plus(0x3C80, Rest(c)), Tail(c)) == Plus(0xF2080, c)
  {
  }

  lemma Join4c(c: bv32)
    requires c <= MAX_LEGAL
    ensures Minus(Joined(Plus(0xF2080, Rest(c)), Tail(c)), 0x3C82080) == c
  {
  }

  lemma Head1(ch: bv32)
    requires ch < 0x80
    ensures Head(ch, 1) < 0x80 && Head(ch, 1) as bv32 == ch
  {
  }

  lemma Head2(c: bv32)
    requires 0x2 <= c < 0x20
    ensures 0xC2 <= Head(c, 2) < 0xE0 && Head(c, 2) as bv32 == Plus(0xC0, c)
  {
  }

  lemma Head3(c: bv32)
    requires c < 0x10
    ensures 0xE0 <= Head(c, 3) < 0xF0 && Head(c, 3) as bv32 == Plus(0xE0, c)
  {
  }

  lemma Head4(c: bv32)
    requires c <= 0x4
    ensures 0xF0 <= Head(c, 4) <= 0xF4 && Head(c, 4) as bv32 == Plus(0xF0, c)
  {
  }

  lemma TailContinues(c: bv32)
    ensures Continues(Tail(c))
  {
  }

  lemma Second3(ch: bv32)
    requires 0x800 <= ch < 0x10000 && !Surrogate(ch)
    ensures SecondOk(Head(Rest(Rest(ch)), 3), Tail(Rest(ch))) && Rest(ch) < 0x400 && Rest(Rest(ch)) < 0x10
  {
  }

  lemma Second4(ch: bv32)
    requires 0x10000 <= ch <= MAX_LEGAL
    ensures var c1 := Rest(ch);
            var c2 := Rest(c1);
            SecondOk(Head(Rest(c2), 4), Tail(c2)) && c1 <= 0x43FF && c2 <= 0x10F && Rest(c2) <= 0x4
  {
  }

  lemma Rest2(ch: bv32)
    requires 0x80 <= ch < 0x800
    ensures 0x2 <= Rest(ch) < 0x20
  {
  }

  ghost predicate Inverted(ch: bv32) {
    var b := Encode8(ch);
    Legal(b) && Trailing(b[0]) == |b| - 1 && Decode8(b) == ch
  }

  /** Encoding and decoding a character; the encoding is legal and its first byte tells its length. */
  lemma Decode8Inverts(ch: bv32)
    requires Scalar(ch)
    ensures Inverted(ch)
  {
    hide Inverted;
    if ch < 0x80 {
      One(ch);
    } else if ch < 0x800 {
      Two(ch);
    } else if ch < 0x10000 {
      Three(ch);
    } else {
      Four(ch);
    }
  }

  lemma One(ch: bv32)
    requires ch < 0x80
    ensures Inverted(ch)
  {
    hide Gathered, Head, Minus;
    Head1(ch);
    InRange1(Head(ch, 1));
    Gather1(Head(ch, 1));
  }

  lemma Two(ch: bv32)
    requires 0x80 <= ch < 0x800
    ensures Inverted(ch)
  {
    hide Gathered, Head, Tail, Rest, Joined, Plus, Minus;
    Rest2(ch);
    Head2(Rest(ch));
    TailContinues(ch);
    Gather2(Head(Rest(ch), 2), Tail(ch));
    Join2(ch);
  }

  lemma Three(ch: bv32)
    requires 0x800 <= ch < 0x10000 && !Surrogate(ch)
    ensures Inverted(ch)
  {
    hide Legal, Trailing, Decode8, Head, Tail, Rest;
    var ch1 := Rest(ch);
    var a, b, c := Head(Rest(ch1), 3), Tail(ch1), Tail(ch);
    Legal3(ch);
    Value3(ch);
    assert Encode8(ch) == [a, b, c];
  }

  lemma Legal3(ch: bv32)
    requires 0x800 <= ch < 0x10000 && !Surrogate(ch)
    ensures var ch1 := Rest(ch);
            var a, b, c := Head(Rest(ch1), 3), Tail(ch1), Tail(ch);
            Legal([a, b, c]) && Trailing(a) == 2
  {
    hide Head, Tail, Rest, SecondOk;
    Second3(ch);
    Head3(Rest(Rest(ch)));
    TailContinues(ch);
  }

  lemma Value3(ch: bv32)
    requires 0x800 <= ch < 0x10000 && !Surrogate(ch)
    ensures var ch1 := Rest(ch); Decode8([Head(Rest(ch1), 3), Tail(ch1), Tail(ch)]) == ch
  {
    hide Gathered, Head, Tail, Rest, Joined, Plus, Minus;
    var ch1 := Rest(ch);
    Second3(ch);
    Head3(Rest(ch1));
    Gather3(Head(Rest(ch1), 3), Tail(ch1), Tail(ch));
    Join3a(ch1);
    Join3b(ch);
  }

  lemma Four(ch: bv32)
    requires 0x10000 <= ch <= MAX_LEGAL
    ensures Inverted(ch)
  {
    hide Legal, Trailing, Decode8, Head, Tail, Rest;
    var ch1 := Rest(ch);
    var ch2 := Rest(ch1);
    var a, b, c, d := Head(Rest(ch2), 4), Tail(ch2), Tail(ch1), Tail(ch);
    Legal4(ch);
    Value4(ch);
    assert Encode8(ch) == [a, b, c, d];
  }

  lemma Legal4(ch: bv32)
    requires 0x10000 <= ch <= MAX_LEGAL
    ensures var ch1 := Rest(ch);
            var ch2 := Rest(ch1);
            var a, b, c, d := Head(Rest(ch2), 4), Tail(ch2), Tail(ch1), Tail(ch);
            Legal([a, b, c, d]) && Trailing(a) == 3
  {
    hide Head, Tail, Rest, SecondOk;
    Second4(ch);
    Head4(Rest(Rest(Rest(ch))));
    TailContinues(ch);
    TailContinues(Rest(ch));
  }

  lemma Value4(ch: bv32)
    requires 0x10000 <= ch <= MAX_LEGAL
    ensures var ch1 := Rest(ch);
            var ch2 := Rest(ch1);
            Decode8([Head(Rest(ch2), 4), Tail(ch2), Tail(ch1), Tail(ch)]) == ch
  {
    hide Gathered, Head, Tail, Rest, Joined, Plus, Minus;
    var ch1 := Rest(ch);
    var ch2 := Rest(ch1);
    Second4(ch);
    Head4(Rest(ch2));
    Gather4(Head(Rest(ch2), 4), Tail(ch2), Tail(ch1), Tail(ch));
    Join4a(ch2);
    Join4b(ch1);
    Join4c(ch);
  }

  /** Nothing that passes the test decodes beyond the last code point. */
  lemma LegalIsInRange(b: seq<bv8>)
    requires Legal(b) && Trailing(b[0]) == |b| - 1
    ensures Decode8(b) <= MAX_LEGAL
  {
    hide Gathered, Joined, Minus;
    if |b| == 1 {
      assert b == [b[0]];
      Gather1(b[0]);
      InRange1(b[0]);
    } else if |b| == 2 {
      assert b == [b[0], b[1]];
      Gather2(b[0], b[1]);
      InRange2(b[0], b[1]);
    } else if |b| == 3 {
      assert b == [b[0], b[1], b[2]];
      Gather3(b[0], b[1], b[2]);
      InRange3(b[0], b[1], b[2]);
    } else {
      assert b == [b[0], b[1], b[2], b[3]];
      Gather4(b[0], b[1], b[2], b[3]);
      InRange4(b[0], b[1], b[2], b[3]);
    }
  }

  lemma InRange1(a: bv8)
    ensures Minus(a as bv32, 0) == a as bv32 <= MAX_LEGAL
  {
  }

  lemma InRange2(a: bv8, b: bv8)
    requires 0xC2 <= a < 0xE0 && SecondOk(a, b)
    ensures Minus(Joined(a as bv32, b), 0x3080) <= MAX_LEGAL
  {
  }

  lemma InRange3(a: bv8, b: bv8, c: bv8)
    requires 0xE0 <= a < 0xF0 && SecondOk(a, b) && Continues(c)
    ensures Minus(Joined(Joined(a as bv32, b), c), 0xE2080) <= MAX_LEGAL
  {
  }

  lemma InRange4(a: bv8, b: bv8, c: bv8, d: bv8)
    requires 0xF0 <= a <= 0xF4 && SecondOk(a, b) && Continues(c) && Continues(d)
    ensures Minus(Joined(Joined(Joined(a as bv32, b), c), d), 0x3C82080) <= MAX_LEGAL
  {
  }

  // ----- UTF-16 -----

  function HighHalf(ch: bv32): bv16 {
    ((((ch - 0x10000) >> 10) + 0xD800) & 0xFFFF) as bv16
  }

  function LowHalf(ch: bv32): bv16 {
    ((((ch - 0x10000) & 0x3FF) + 0xDC00) & 0xFFFF) as bv16
  }

  function Encode16(ch: bv32): (r: seq<bv16>)
    ensures 1 <= |r| <= 2
  {
    if ch <= 0xFFFF then [(ch & 0xFFFF) as bv16] else [HighHalf(ch), LowHalf(ch)]
  }

  function Combined(ch: bv32, ch2: bv32): bv32 {
    ((ch - 0xD800) << 10) + (ch2 - 0xDC00) + 0x10000
  }

  lemma Decode16Inverts(ch: bv32)
    requires 0x10000 <= ch <= MAX_LEGAL
    ensures var a, b := HighHalf(ch) as bv32, LowHalf(ch) as bv32; High(a) && Low(b) && Combined(a, b) == ch
  {
    var x := ch - 0x10000;
    assert x < 0x100000;
    Halves(x);
    assert x + 0x10000 == ch;
  }

  /** The upper and the lower ten bits, as the units of a pair carry them. */
  function Upper(x: bv32): bv32 {
    ((((x >> 10) + 0xD800) & 0xFFFF) as bv16) as bv32
  }

  function Lower(x: bv32): bv32 {
    ((((x & 0x3FF) + 0xDC00) & 0xFFFF) as bv16) as bv32
  }

  lemma UpperHalf(x: bv32)
    requires x < 0x100000
    ensures High(Upper(x)) && Upper(x) - 0xD800 == x >> 10
  {
  }

  lemma LowerHalf(x: bv32)
    ensures Low(Lower(x)) && Lower(x) - 0xDC00 == x & 0x3FF
  {
  }

  lemma BothHalves(x: bv32)
    ensures ((x >> 10) << 10) + (x & 0x3FF) == x
  {
  }

  lemma Halves(x: bv32)
    requires x < 0x100000
    ensures High(Upper(x)) && Low(Lower(x)) && ((Upper(x) - 0xD800) << 10) + (Lower(x) - 0xDC00) == x
  {
    hide Upper, Lower, High, Low;
    UpperHalf(x);
    LowerHalf(x);
    BothHalves(x);
  }

  lemma CombinedIsInRange(ch: bv32, ch2: bv32)
    requires High(ch) && Low(ch2)
    ensures 0x10000 <= Combined(ch, ch2) <= MAX_LEGAL
  {
  }

  // ----- texts -----

  function Utf8(text: seq<bv32>): seq<bv8> {
    if text == [] then [] else Encode8(text[0]) + Utf8(text[1..])
  }

  function Utf16(text: seq<bv32>): seq<bv16> {
    if text == [] then [] else Encode16(text[0]) + Utf16(text[1..])
  }

  lemma Utf8Cons(ch: bv32, rest: seq<bv32>)
    ensures Utf8([ch] + rest) == Encode8(ch) + Utf8(rest)
  {
    assert ([ch] + rest)[1..] == rest;
  }

  lemma {:induction false} Utf8Join(a: seq<bv32>, b: seq<bv32>)
    ensures Utf8(a + b) == Utf8(a) + Utf8(b)
  {
    hide Utf8, Encode8;
    if a == [] {
      assert a + b == b && Utf8([]) == [] by { Utf8None(); }
    } else {
      var ch, rest := a[0], a[1..];
      Utf8Join(rest, b);
      assert a == [ch] + rest && a + b == [ch] + (rest + b);
      Utf8Cons(ch, rest);
      Utf8Cons(ch, rest + b);
      Associates(Encode8(ch), Utf8(rest), Utf8(b));
    }
  }

  lemma Utf8None()
    ensures Utf8([]) == []
  {
  }

  lemma Utf16Cons(ch: bv32, rest: seq<bv32>)
    ensures Utf16([ch] + rest) == Encode16(ch) + Utf16(rest)
  {
    assert ([ch] + rest)[1..] == rest;
  }

  lemma {:induction false} Utf16Join(a: seq<bv32>, b: seq<bv32>)
    ensures Utf16(a + b) == Utf16(a) + Utf16(b)
  {
    hide Utf16, Encode16;
    if a == [] {
      assert a + b == b && Utf16([]) == [] by { Utf16None(); }
    } else {
      var ch, rest := a[0], a[1..];
      Utf16Join(rest, b);
      assert a == [ch] + rest && a + b == [ch] + (rest + b);
      Utf16Cons(ch, rest);
      Utf16Cons(ch, rest + b);
      Associates(Encode16(ch), Utf16(rest), Utf16(b));
    }
  }

  lemma Utf16None()
    ensures Utf16([]) == []
  {
  }

  lemma Associates<T>(a: seq<T>, b: seq<T>, c: seq<T>)
    ensures a + b + c == a + (b + c)
  {
  }

  lemma Utf8One(ch: bv32)
    ensures Utf8([ch]) == Encode8(ch)
  {
    assert [ch][1..] == [];
  }

  lemma Utf16One(ch: bv32)
    ensures Utf16([ch]) == Encode16(ch)
  {
    assert [ch][1..] == [];
  }
}
