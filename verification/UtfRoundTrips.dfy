/** What the converters promise together: round trips, agreement of direct and indirect ways, and resumption. */
module UtfRoundTrips {
  import opened Unicode
  import opened ConvertUtf

  // ----- a call with enough room converts everything -----

  /** What was read so far is the beginning of all that can be read. */
  lemma {:induction false} ReadsPrefix(source: Source, strict: bool, i: nat, s: nat, a: seq<bv32>, k: nat, b: seq<bv32>)
    requires Reads(source, strict, i, s, a) && ReadsAll(source, strict, i, k, b)
    ensures a <= b && Reads(source, strict, s, k, b[|a|..])
    decreases |a|
  {
    hide ReadAt;
    if a == [] {
      assert b[0..] == b;
    } else {
      ReadsPrefix(source, strict, i + ReadAt(source, i, strict).size, s, a[1..], k, b[1..]);
      assert a == [a[0]] + a[1..] && b == [b[0]] + b[1..];
      assert b[1..][|a| - 1..] == b[|a|..];
    }
  }

  /** If another character can be read, it is the next one of the text. */
  lemma NextOfText(source: Source, strict: bool, i: nat, s: nat, a: seq<bv32>, k: nat, b: seq<bv32>)
    requires Reads(source, strict, i, s, a) && ReadsAll(source, strict, i, k, b)
    ensures var r := ReadAt(source, s, strict);
            if r.Char? then a + [r.ch] <= b else a == b && s == k
  {
    hide ReadAt;
    ReadsPrefix(source, strict, i, s, a, k, b);
    var r := ReadAt(source, s, strict);
    if r.Char? {
      assert |a| < |b| && b[|a|..][0] == b[|a|];
      assert a + [b[|a|]] == b[..|a| + 1];
    } else {
      ReadsAllIsUnique(source, strict, i, s, a, k, b);
    }
  }

  lemma Shorter8(a: seq<bv32>, b: seq<bv32>)
    requires a <= b
    ensures |Utf8(a)| <= |Utf8(b)|
  {
    hide Utf8;
    Utf8Join(a, b[|a|..]);
    assert a + b[|a|..] == b;
  }

  lemma Shorter16(a: seq<bv32>, b: seq<bv32>)
    requires a <= b
    ensures |Utf16(a)| <= |Utf16(b)|
  {
    hide Utf16;
    Utf16Join(a, b[|a|..]);
    assert a + b[|a|..] == b;
  }

  /** The end of a call into UTF-8 with room for the whole text. */
  lemma Whole8(source: Source, strict: bool, i: nat, text: seq<bv32>, s: nat, a: seq<bv32>, room: int, result: Outcome)
    requires ReadsAll(source, strict, i, source.Length(), text) && Reads(source, strict, i, s, a) &&
             |Utf8(text)| <= room
    requires var r := ReadAt(source, s, strict); EndsAs(r, result, room - |Utf8(a)|, Need8(r))
    ensures s == source.Length() && a == text && result != TargetExhausted
  {
    hide ReadAt, Reads, Utf8, Encode8;
    NextOfText(source, strict, i, s, a, source.Length(), text);
    var r := ReadAt(source, s, strict);
    if r.Char? {
      Shorter8(a + [r.ch], text);
      OneMore8(a, r.ch);
      assert false;
    }
  }

  lemma Whole16(source: Source, strict: bool, i: nat, text: seq<bv32>, s: nat, a: seq<bv32>, room: int, result: Outcome)
    requires ReadsAll(source, strict, i, source.Length(), text) && Reads(source, strict, i, s, a) &&
             |Utf16(text)| <= room
    requires var r := ReadAt(source, s, strict); EndsAs(r, result, room - |Utf16(a)|, Need16(r))
    ensures s == source.Length() && a == text && result != TargetExhausted
  {
    hide ReadAt, Reads, Utf16, Encode16;
    NextOfText(source, strict, i, s, a, source.Length(), text);
    var r := ReadAt(source, s, strict);
    if r.Char? {
      Shorter16(a + [r.ch], text);
      OneMore16(a, r.ch);
      assert false;
    }
  }

  lemma Whole32(source: Source, strict: bool, i: nat, text: seq<bv32>, s: nat, a: seq<bv32>, room: int, result: Outcome)
    requires ReadsAll(source, strict, i, source.Length(), text) && Reads(source, strict, i, s, a) && |text| <= room
    requires EndsAs(ReadAt(source, s, strict), result, room - |a|, 1)
    ensures s == source.Length() && a == text && result != TargetExhausted
  {
    hide ReadAt, Reads;
    NextOfText(source, strict, i, s, a, source.Length(), text);
  }

  lemma FromStart<T>(before: seq<T>, after: seq<T>, out: seq<T>)
    requires Filled(before, after, 0, out)
    ensures |out| <= |after| && after[..|out|] == out
  {
  }

  // ----- round trips -----

  /** UTF-32 to UTF-8 and back. */
  method RoundTrip32(text: seq<bv32>, room8: nat, room32: nat, strict: bool) returns (back: seq<bv32>, result: Outcome)
    requires Scalars(text) && room8 >= |Utf8(text)| && room32 >= |text|
    ensures back == text && result == ConversionOK
  {
    hide Reads, ReadAt, Utf8, Filled, Scalars;
    var bytes := new bv8[room8](_ => 0);
    TextReads(text, 0, strict);
    assert text[0..] == text;
    ghost var before := bytes[..];
    var s, t, r, read := ConvertUTF32toUTF8(text, 0, bytes, 0, strict);
    Whole8(Units32(text), strict, 0, text, s, read, room8, r);
    FromStart(before, bytes[..], Utf8(text));
    var source := bytes[..t];
    Utf8Reads([], text, strict);
    assert [] + Utf8(text) == source;
    var chars := new bv32[room32](_ => 0);
    ghost var before' := chars[..];
    s, t, r, read := ConvertUTF8toUTF32(source, 0, chars, 0, strict);
    Whole32(Units8(source), strict, 0, text, s, read, room32, r);
    FromStart(before', chars[..], text);
    back, result := chars[..t], r;
  }

  predicate HighUnit(u: bv16) {
    High(u as bv32)
  }

  predicate LowUnit(u: bv16) {
    Low(u as bv32)
  }

  /** Surrogates come in pairs, high before low (section 2 of RFC 2781). */
  ghost predicate WellFormed16(s: seq<bv16>) {
    && (forall i :: 0 <= i < |s| && HighUnit(s[i]) ==> i + 1 < |s| && LowUnit(s[i + 1]))
    && (forall i :: 0 <= i < |s| && LowUnit(s[i]) ==> i > 0 && HighUnit(s[i - 1]))
  }

  lemma PairedAt(s: seq<bv16>, i: nat)
    requires WellFormed16(s) && i < |s|
    ensures HighUnit(s[i]) ==> i + 1 < |s| && LowUnit(s[i + 1])
    ensures LowUnit(s[i]) ==> i > 0 && HighUnit(s[i - 1])
  {
    hide HighUnit, LowUnit;
  }

  lemma ReadsCons(source: Source, strict: bool, i: nat, j: nat, ch: bv32, n: nat, rest: seq<bv32>)
    requires ReadAt(source, i, strict) == Char(ch, n) && ReadsAll(source, strict, i + n, j, rest)
    ensures ReadsAll(source, strict, i, j, [ch] + rest)
  {
    hide ReadAt;
    assert ([ch] + rest)[1..] == rest;
  }

  /** A well-formed UTF-16 string is the encoding of the text it reads as. */
  lemma {:induction false} WellFormedReads(s: seq<bv16>, i: nat) returns (text: seq<bv32>)
    requires WellFormed16(s) && i <= |s| && (i < |s| ==> !LowUnit(s[i]))
    ensures ReadsAll(Units16(s), true, i, |s|, text) && Scalars(text) && Utf16(text) == s[i..]
    decreases |s| - i
  {
    hide WellFormed16, HighUnit, LowUnit, Encode16, Scalar, Scalars, ReadsAll, ReadAt, Utf16;
    if i == |s| {
      NoneLeft(s);
      return [];
    }
    PairedAt(s, i);
    var ch, n := UnitsAt(s, i);
    NextIsNotLow(s, i, n);
    var rest := WellFormedReads(s, i + n);
    text := [ch] + rest;
    ReadsCons(Units16(s), true, i, |s|, ch, n, rest);
    Utf16Cons(ch, rest);
    ScalarsCons(ch, rest);
    Slice(s, i, n);
  }

  lemma NoneLeft(s: seq<bv16>)
    ensures ReadsAll(Units16(s), true, |s|, |s|, []) && Scalars([]) && Utf16([]) == s[|s|..]
  {
  }

  lemma Slice<T>(s: seq<T>, i: nat, n: nat)
    requires i + n <= |s|
    ensures s[i..] == s[i..i + n] + s[i + n..] && s == s[..i] + s[i..i + n] + s[i + n..]
    ensures n == 1 ==> s[i..i + n] == [s[i]]
    ensures n == 2 ==> s[i..i + n] == [s[i], s[i + 1]]
  {
  }

  lemma ScalarsCons(ch: bv32, rest: seq<bv32>)
    requires Scalar(ch) && Scalars(rest)
    ensures Scalars([ch] + rest)
  {
    hide Scalar;
  }

  lemma NextIsNotLow(s: seq<bv16>, i: nat, n: nat)
    requires WellFormed16(s) && i < |s| && 1 <= n <= 2 && i + n <= |s|
    requires if n == 1 then !HighUnit(s[i]) else LowUnit(s[i + 1])
    ensures i + n < |s| ==> !LowUnit(s[i + n])
  {
    hide HighUnit, LowUnit, WellFormed16;
    if i + n < |s| {
      PairedAt(s, i + n);
      HighIsNotLow(s[i + n - 1]);
    }
  }

  /** One character of a well-formed string, of one unit or two. */
  lemma UnitsAt(s: seq<bv16>, i: nat) returns (ch: bv32, n: nat)
    requires i < |s| && !LowUnit(s[i]) && (HighUnit(s[i]) ==> i + 1 < |s| && LowUnit(s[i + 1]))
    ensures 1 <= n <= 2 && i + n <= |s| && ReadAt(Units16(s), i, true) == Char(ch, n)
    ensures Scalar(ch) && Encode16(ch) == s[i..i + n]
    ensures if n == 1 then !HighUnit(s[i]) else LowUnit(s[i + 1])
  {
    hide HighUnit, LowUnit, Encode16, Scalar, Read16;
    ch, n := CharacterOf(s[i], if i + 1 < |s| then s[i + 1] else 0);
    Slice(s, i, n);
    Read16Encoded(s[..i], ch, s[i + n..], true);
  }

  lemma CharacterOf(a: bv16, b: bv16) returns (ch: bv32, n: nat)
    requires !LowUnit(a) && (HighUnit(a) ==> LowUnit(b))
    ensures Scalar(ch) && n == (if HighUnit(a) then 2 else 1) && Encode16(ch) == if n == 2 then [a, b] else [a]
  {
    hide HighUnit, LowUnit, Encode16, Scalar, Combined;
    if HighUnit(a) {
      PairIsScalar(a, b);
      ch, n := Combined(a as bv32, b as bv32), 2;
    } else {
      UnitIsScalar(a);
      ch, n := a as bv32, 1;
    }
  }

  lemma HighIsNotLow(u: bv16)
    ensures !(HighUnit(u) && LowUnit(u))
  {
  }

  lemma UnitIsScalar(u: bv16)
    requires !HighUnit(u) && !LowUnit(u)
    ensures Scalar(u as bv32) && Encode16(u as bv32) == [u]
  {
  }

  lemma PairIsScalar(a: bv16, b: bv16)
    requires HighUnit(a) && LowUnit(b)
    ensures var ch := Combined(a as bv32, b as bv32); Scalar(ch) && Encode16(ch) == [a, b]
  {
    CombinedIsInRange(a as bv32, b as bv32);
    HalvesOfCombined(a, b);
  }

  lemma HalvesOfCombined(a: bv16, b: bv16)
    requires HighUnit(a) && LowUnit(b)
    ensures var ch := Combined(a as bv32, b as bv32); HighHalf(ch) == a && LowHalf(ch) == b
  {
  }

  /** UTF-16 to UTF-8 and back, on well-formed UTF-16. */
  method RoundTrip16(source: seq<bv16>, room8: nat, room16: nat, ghost text: seq<bv32>)
    returns (back: seq<bv16>, result: Outcome)
    requires WellFormed16(source) && ReadsAll(Units16(source), true, 0, |source|, text)
    requires room8 >= |Utf8(text)| && room16 >= |source|
    ensures back == source && result == ConversionOK
  {
    hide Reads, ReadAt, Utf8, Utf16, Filled, Scalars, WellFormed16;
    FirstIsNotLow(source);
    ghost var known := WellFormedReads(source, 0);
    ReadsAllIsUnique(Units16(source), true, 0, |source|, text, |source|, known);
    assert source[0..] == source;
    var bytes := new bv8[room8](_ => 0);
    ghost var before := bytes[..];
    var s, t, r, read := ConvertUTF16toUTF8(source, 0, bytes, 0, true);
    Whole8(Units16(source), true, 0, text, s, read, room8, r);
    FromStart(before, bytes[..], Utf8(text));
    var utf8 := bytes[..t];
    Utf8Reads([], text, true);
    assert [] + Utf8(text) == utf8;
    var units := new bv16[room16](_ => 0);
    ghost var before' := units[..];
    s, t, r, read := ConvertUTF8toUTF16(utf8, 0, units, 0, true);
    Whole16(Units8(utf8), true, 0, text, s, read, room16, r);
    FromStart(before', units[..], Utf16(text));
    back, result := units[..t], r;
  }

  lemma FirstIsNotLow(s: seq<bv16>)
    requires WellFormed16(s)
    ensures |s| > 0 ==> !LowUnit(s[0])
  {
  }

  // ----- direct and indirect conversion -----

  /** Whatever can be read from UTF-16 can be read again from UTF-32, lenient or strict. */
  lemma {:induction false} TextOf16Reads(source: seq<bv16>, strict: bool, i: nat, j: nat, text: seq<bv32>, k: nat)
    requires k <= |text| && Reads(Units16(source), strict, i, j, text[k..])
    ensures ReadsAll(Units32(text), strict, k, |text|, text[k..])
    decreases |text| - k
  {
    hide Read16, Surrogate;
    if k < |text| {
      var r := ReadAt(Units16(source), i, strict);
      assert text[k..][0] == text[k] && text[k..][1..] == text[k + 1..];
      ReadIsReadable(source, i, strict);
      TextOf16Reads(source, strict, i + r.size, j, text, k + 1);
    }
  }

  lemma ReadIsReadable(source: seq<bv16>, i: nat, strict: bool)
    ensures var r := Read16(source, i, strict); r.Char? ==> r.ch <= MAX_LEGAL && (strict ==> !Surrogate(r.ch))
  {
    hide Combined;
    if i + 1 < |source| && High(source[i] as bv32) && Low(source[i + 1] as bv32) {
      CombinedIsInRange(source[i] as bv32, source[i + 1] as bv32);
      Beyond(Combined(source[i] as bv32, source[i + 1] as bv32));
    }
  }

  lemma Beyond(ch: bv32)
    requires ch >= 0x10000
    ensures !Surrogate(ch)
  {
  }

  /** For any UTF-16, well-formed or not: to UTF-8 directly and through UTF-32 gives the same bytes. */
  method DirectIsViaUtf32(source: seq<bv16>, strict: bool, room8: nat, room32: nat, ghost text: seq<bv32>)
    returns (direct: seq<bv8>, via: seq<bv8>)
    requires exists j :: ReadsAll(Units16(source), strict, 0, j, text)
    requires room8 >= |Utf8(text)| && room32 >= |text|
    ensures direct == via == Utf8(text)
  {
    hide Reads, ReadAt, Utf8, Filled;
    ghost var j: nat :| ReadsAll(Units16(source), strict, 0, j, text);
    var a := new bv8[room8](_ => 0);
    ghost var before := a[..];
    var s, t, r, read := ConvertUTF16toUTF8(source, 0, a, 0, strict);
    Readable8(Units16(source), strict, j, text, s, read, room8, r);
    FromStart(before, a[..], Utf8(text));
    direct := a[..t];
    var b := new bv32[room32](_ => 0);
    ghost var before' := b[..];
    s, t, r, read := ConvertUTF16toUTF32(source, 0, b, 0, strict);
    Readable32(Units16(source), strict, j, text, s, read, room32, r);
    FromStart(before', b[..], text);
    var chars := b[..t];
    assert text[0..] == text;
    TextOf16Reads(source, strict, 0, j, text, 0);
    var c := new bv8[room8](_ => 0);
    ghost var before'' := c[..];
    s, t, r, read := ConvertUTF32toUTF8(chars, 0, c, 0, strict);
    Whole8(Units32(chars), strict, 0, text, s, read, room8, r);
    FromStart(before'', c[..], Utf8(text));
    via := c[..t];
  }

  /** With enough room a call reads all that can be read, even if the source is bad behind it. */
  lemma Readable8(source: Source, strict: bool, k: nat, text: seq<bv32>, s: nat, a: seq<bv32>, room: int,
                  result: Outcome)
    requires ReadsAll(source, strict, 0, k, text) && Reads(source, strict, 0, s, a) && |Utf8(text)| <= room
    requires var r := ReadAt(source, s, strict);
               EndsAs(r, result, room - |Utf8(a)|, Need8(r)) && (result == TargetExhausted ==> r.Char?)
    ensures s == k && a == text && result != TargetExhausted
  {
    hide ReadAt, Reads, Utf8, Encode8;
    NextOfText(source, strict, 0, s, a, k, text);
    var r := ReadAt(source, s, strict);
    if r.Char? {
      Shorter8(a + [r.ch], text);
      OneMore8(a, r.ch);
      assert false;
    }
  }

  lemma Readable32(source: Source, strict: bool, k: nat, text: seq<bv32>, s: nat, a: seq<bv32>, room: int,
                   result: Outcome)
    requires ReadsAll(source, strict, 0, k, text) && Reads(source, strict, 0, s, a) && |text| <= room
    requires var r := ReadAt(source, s, strict);
               EndsAs(r, result, room - |a|, 1) && (result == TargetExhausted ==> r.Char?)
    ensures s == k && a == text && result != TargetExhausted
  {
    hide ReadAt, Reads;
    NextOfText(source, strict, 0, s, a, k, text);
  }

  // ----- resumption -----

  /**
   * A call that stopped at `j` for want of room, and later calls that went on from there to the end, together read
   * and write what one call with enough room does.
   */
  lemma ResumedIsOneShot(source: Source, strict: bool, i: nat, j: nat, a: seq<bv32>, k: nat, b: seq<bv32>, m: nat,
                         c: seq<bv32>)
    requires Reads(source, strict, i, j, a) && ReadsAll(source, strict, j, k, b) && ReadsAll(source, strict, i, m, c)
    ensures m == k && c == a + b
    ensures Utf8(c) == Utf8(a) + Utf8(b) && Utf16(c) == Utf16(a) + Utf16(b)
  {
    hide Reads, ReadAt, Utf8, Utf16;
    ReadsJoin(source, strict, i, j, k, a, b);
    ReadsAllIsUnique(source, strict, i, k, a + b, m, c);
    Utf8Join(a, b);
    Utf16Join(a, b);
  }

  /** How far a call with this much room gets. */
  ghost function Fits(source: Source, strict: bool, i: nat, room: int): nat
    decreases source.Length() - i
  {
    var r := ReadAt(source, i, strict);
    if r.Char? && Size8(r.ch) <= room then Fits(source, strict, i + r.size, room - Size8(r.ch)) else i
  }

  /** How far calls with these rooms get, each going on where the last one stopped. */
  ghost function Reached(source: Source, strict: bool, rooms: seq<nat>): nat {
    if rooms == [] then 0 else Fits(source, strict, Reached(source, strict, rooms[..|rooms| - 1]), rooms[|rooms| - 1])
  }

  /** Calls with these rooms, of which there is at least one, leave nothing that can be read. */
  ghost predicate Done(source: Source, strict: bool, rooms: seq<nat>) {
    rooms != [] && !ReadAt(source, Reached(source, strict, rooms), strict).Char?
  }

  lemma {:induction false} StopsWhereFull(source: Source, strict: bool, i: nat, s: nat, text: seq<bv32>, room: int)
    requires Reads(source, strict, i, s, text) && |Utf8(text)| <= room
    requires var r := ReadAt(source, s, strict); r.Char? ==> room - |Utf8(text)| < Size8(r.ch)
    ensures s == Fits(source, strict, i, room)
    decreases |text|
  {
    hide ReadAt, Encode8;
    if text != [] {
      var r := ReadAt(source, i, strict);
      SizeIs(r.ch);
      StopsWhereFull(source, strict, i + r.size, s, text[1..], room - Size8(r.ch));
    }
  }

  lemma SizeIs(ch: bv32)
    ensures |Encode8(ch)| == Size8(ch)
  {
  }

  /** One more call behind those that filled their rooms. */
  lemma CallReaches(source: Source, strict: bool, rooms: seq<nat>, n: nat, s: nat, text: seq<bv32>, result: Outcome)
    requires n < |rooms| && |Utf8(text)| <= rooms[n] &&
             Reads(source, strict, Reached(source, strict, rooms[..n]), s, text)
    requires var r := ReadAt(source, s, strict);
               EndsAs(r, result, rooms[n] - |Utf8(text)|, Need8(r)) && (result == TargetExhausted ==> r.Char?)
    ensures s == Reached(source, strict, rooms[..n + 1])
  {
    hide ReadAt, Reads, Utf8, Fits;
    assert rooms[..n + 1][..n] == rooms[..n] && rooms[..n + 1][n] == rooms[n];
    StopsWhereFull(source, strict, Reached(source, strict, rooms[..n]), s, text, rooms[n]);
  }

  /** Two ways of reading everything. */
  lemma SameBytes(source: Source, strict: bool, s: nat, a: seq<bv32>, k: nat, b: seq<bv32>)
    requires ReadsAll(source, strict, 0, s, a) && ReadsAll(source, strict, 0, k, b)
    ensures s == k && Utf8(a) == Utf8(b)
  {
    hide ReadAt, Reads, Utf8;
    ReadsAllIsUnique(source, strict, 0, s, a, k, b);
  }

  /**
   * Converting UTF-16 into buffers of any sizes, one after the other, gives the bytes and the outcome of one call with
   * enough room.
   */
  method InPieces(source: seq<bv16>, strict: bool, rooms: seq<nat>, room: nat)
    returns (out: seq<bv8>, result: Outcome, whole: seq<bv8>, once: Outcome)
    ensures result != TargetExhausted <==> Done(Units16(source), strict, rooms)
    ensures once != TargetExhausted <==> Done(Units16(source), strict, [room])
    ensures result != TargetExhausted && once != TargetExhausted ==> out == whole && result == once
  {
    hide Reads, ReadAt, Utf8, Filled, Reached;
    var units := Units16(source);
    NoneReached(units, strict);
    var all := new bv8[room](_ => 0);
    ghost var empty := all[..];
    var k, t, r, read := ConvertUTF16toUTF8(source, 0, all, 0, strict);
    FromStart(empty, all[..], Utf8(read));
    OneCallReaches(units, strict, room, k, read, r);
    whole, once := all[..t], r;
    NothingRead(units, strict, 0);
    var s; ghost var text;
    out, s, result, text := [], 0, TargetExhausted, [];
    assert rooms[..0] == [] && rooms[..|rooms|] == rooms;
    for n := 0 to |rooms|
      invariant s <= |source| && Reads(units, strict, 0, s, text) && out == Utf8(text)
      invariant result != TargetExhausted <==> Done(units, strict, rooms[..n])
      invariant s == Reached(units, strict, rooms[..n])
      invariant result != TargetExhausted ==>
                  ReadsAll(units, strict, 0, s, text) && result == Ending(ReadAt(units, s, strict))
    {
      if result != TargetExhausted {
        StaysDone(units, strict, rooms, n);
        continue;
      }
      var target := new bv8[rooms[n]](_ => 0);
      ghost var before := target[..];
      var s', t', r', more := ConvertUTF16toUTF8(source, s, target, 0, strict);
      FromStart(before, target[..], Utf8(more));
      ReadsJoin(units, strict, 0, s, s', text, more);
      Utf8Join(text, more);
      CallReaches(units, strict, rooms, n, s', more, r');
      out, s, result, text := out + target[..t'], s', r', text + more;
    }
    if result != TargetExhausted && once != TargetExhausted { SameBytes(units, strict, s, text, k, read); }
  }

  /** More room changes nothing once everything is read. */
  lemma StaysDone(source: Source, strict: bool, rooms: seq<nat>, n: nat)
    requires n < |rooms| && Done(source, strict, rooms[..n])
    ensures Done(source, strict, rooms[..n + 1])
    ensures Reached(source, strict, rooms[..n + 1]) == Reached(source, strict, rooms[..n])
  {
    hide ReadAt;
    assert rooms[..n + 1][..n] == rooms[..n] && rooms[..n + 1][n] == rooms[n];
  }

  /** What a call says that stopped before this. */
  function Ending(r: Read): Outcome {
    match r
    case End => ConversionOK
    case Short => SourceExhausted
    case Bad => SourceIllegal
    case Char(_, _) => TargetExhausted
  }

  /** All code points beyond the last legal one were converted by calls that then ran out of room. */
  ghost predicate Forgotten(source: seq<bv32>, strict: bool, earlier: seq<nat>) {
    var i := Reached(Units32(source), strict, earlier);
    Readable(source, strict) && TooLarge(source, 0, i) && !TooLarge(source, i, |source|)
  }

  ghost predicate Readable(source: seq<bv32>, strict: bool) {
    forall k :: 0 <= k < |source| ==> !(strict && Surrogate(source[k]))
  }

  /** What one call with enough room says. */
  ghost function Verdict(source: seq<bv32>, strict: bool): Outcome {
    if Readable(source, strict) && !TooLarge(source, 0, |source|) then ConversionOK else SourceIllegal
  }

  /**
   * The same for UTF-32, but for the outcome: it is that of one call just if the illegal code points were not all
   * converted before the last call. The last call is the first after which nothing is left to read; there is one, and
   * one call does, exactly if the rooms suffice.
   */
  method InPieces32(source: seq<bv32>, strict: bool, rooms: seq<nat>, room: nat)
    returns (out: seq<bv8>, result: Outcome, calls: nat, whole: seq<bv8>, once: Outcome)
    ensures calls <= |rooms| && forall n :: 0 < n < calls ==> !Done(Units32(source), strict, rooms[..n])
    ensures result != TargetExhausted <==> Done(Units32(source), strict, rooms[..calls])
    ensures result == TargetExhausted ==> calls == |rooms|
    ensures once != TargetExhausted <==> Done(Units32(source), strict, [room])
    ensures once != TargetExhausted ==> once == Verdict(source, strict)
    ensures result != TargetExhausted ==> calls > 0 && result in {SourceIllegal, ConversionOK}
    ensures result != TargetExhausted && once != TargetExhausted ==>
              out == whole && (result == once <==> !Forgotten(source, strict, rooms[..calls - 1]))
  {
    hide Reads, ReadAt, Utf8, Filled, Reached, TooLarge, Surrogate;
    var units := Units32(source);
    NoneReached(units, strict);
    var all := new bv8[room](_ => 0);
    ghost var empty := all[..];
    var k, t, r, read := ConvertUTF32toUTF8(source, 0, all, 0, strict);
    FromStart(empty, all[..], Utf8(read));
    OneCallReaches(units, strict, room, k, read, r);
    NeverShort(source, k, strict);
    if r != TargetExhausted { StoppedOrReadable(source, strict, 0, k, read); }
    whole, once := all[..t], r;
    NothingRead(units, strict, 0);
    var s; ghost var text, from;
    out, s, result, calls, text, from := [], 0, TargetExhausted, 0, [], 0;
    assert rooms[..0] == [];
    for n := 0 to |rooms|
      invariant s <= |source| && Reads(units, strict, 0, s, text) && out == Utf8(text) && calls <= n
      invariant forall m :: 0 < m < calls ==> !Done(units, strict, rooms[..m])
      invariant s == Reached(units, strict, rooms[..calls])
      invariant result == TargetExhausted ==> calls == n && !Done(units, strict, rooms[..calls])
      invariant result != TargetExhausted ==>
                  && ReadsAll(units, strict, 0, s, text) && 0 < calls && Done(units, strict, rooms[..calls])
                  && from == Reached(units, strict, rooms[..calls - 1])
                  && from <= s && result in {SourceIllegal, ConversionOK}
                  && (result == SourceIllegal <==> s < |source| || TooLarge(source, from, s))
    {
      if result != TargetExhausted { break; }
      var target := new bv8[rooms[n]](_ => 0);
      ghost var before := target[..];
      var s', t', r', more := ConvertUTF32toUTF8(source, s, target, 0, strict);
      FromStart(before, target[..], Utf8(more));
      ReadsJoin(units, strict, 0, s, s', text, more);
      Utf8Join(text, more);
      CallReaches(units, strict, rooms, n, s', more, r');
      NeverShort(source, s', strict);
      from := s;
      out, s, result, calls, text := out + target[..t'], s', r', n + 1, text + more;
    }
    if result != TargetExhausted && once != TargetExhausted {
      SameBytes(units, strict, s, text, k, read);
      SplitTooLarge(source, from);
    }
  }

  /** A first call. */
  lemma OneCallReaches(source: Source, strict: bool, room: nat, s: nat, text: seq<bv32>, result: Outcome)
    requires |Utf8(text)| <= room && Reads(source, strict, 0, s, text)
    requires var r := ReadAt(source, s, strict);
               EndsAs(r, result, room - |Utf8(text)|, Need8(r)) && (result == TargetExhausted ==> r.Char?)
    ensures s == Reached(source, strict, [room])
  {
    hide ReadAt, Reads, Utf8, Fits, Reached;
    var rooms := [room];
    NoneReached(source, strict);
    assert rooms[..0] == [] && rooms[..1] == rooms;
    CallReaches(source, strict, rooms, 0, s, text, result);
  }

  lemma NoneReached(source: Source, strict: bool)
    ensures Reached(source, strict, []) == 0
  {
  }

  lemma NeverShort(source: seq<bv32>, i: nat, strict: bool)
    ensures !ReadAt(Units32(source), i, strict).Short?
  {
  }

  lemma SplitTooLarge(source: seq<bv32>, i: nat)
    requires i <= |source|
    ensures TooLarge(source, 0, |source|) <==> TooLarge(source, 0, i) || TooLarge(source, i, |source|)
  {
  }

  /** Reading UTF-32 ends at its end just if nothing in it is unreadable. */
  lemma {:induction false} StoppedOrReadable(source: seq<bv32>, strict: bool, i: nat, s: nat, text: seq<bv32>)
    requires ReadsAll(Units32(source), strict, i, s, text) && s <= |source|
    ensures s == |source| <==> forall k :: i <= k < |source| ==> !(strict && Surrogate(source[k]))
    ensures i <= s
    decreases |text|
  {
    hide Surrogate;
    if text != [] { StoppedOrReadable(source, strict, i + 1, s, text[1..]); }
  }

  /** A code point that is too large, converted into three bytes of room, before a harmless one. */
  lemma ErrorForgotten(strict: bool)
    ensures var source, units := [0x110000, 0x41], Units32([0x110000, 0x41]);
            && Forgotten(source, strict, [3]) && Verdict(source, strict) == SourceIllegal
            && !Done(units, strict, [3]) && Done(units, strict, [3, 1]) && Done(units, strict, [4])
  {
    hide Fits;
    var source: seq<bv32> := [0x110000, 0x41];
    var units := Units32(source);
    StepsOfTwo(strict);
    assert [3][..0] == [] && [4][..0] == [] && [3, 1][..1] == [3];
    assert Reached(units, strict, [3]) == 1;
    assert Reached(units, strict, [4]) == 2;
    assert Reached(units, strict, [3, 1]) == 2;
    assert source[0] > MAX_LEGAL;
  }

  lemma StepsOfTwo(strict: bool)
    ensures var units := Units32([0x110000, 0x41]);
            && ReadAt(units, 1, strict).Char? && !ReadAt(units, 2, strict).Char?
            && Fits(units, strict, 0, 3) == 1 && Fits(units, strict, 1, 1) == 2 && Fits(units, strict, 0, 4) == 2
  {
    var units := Units32([0x110000, 0x41]);
    assert ReadAt(units, 0, strict) == Char(REPLACEMENT, 1) && Size8(REPLACEMENT) == 3;
    assert ReadAt(units, 1, strict) == Char(0x41, 1) && Size8(0x41) == 1;
    assert Fits(units, strict, 0, 3) == Fits(units, strict, 1, 0) == 1;
    assert Fits(units, strict, 1, 1) == Fits(units, strict, 2, 0) == 2;
    assert Fits(units, strict, 0, 4) == Fits(units, strict, 1, 1);
  }

  /** Converted in two calls it is reported as fine, in one call as illegal; the bytes are the same. */
  method ErrorLost(strict: bool) returns (out: seq<bv8>, result: Outcome, whole: seq<bv8>, once: Outcome)
    ensures out == whole && result == ConversionOK && once == SourceIllegal
  {
    hide Done, Forgotten, Verdict;
    ErrorForgotten(strict);
    var calls;
    ghost var rooms: seq<nat> := [3, 1];
    assert rooms[..1] == [3] && rooms[..2] == rooms;
    NoneDone(Units32([0x110000, 0x41]), strict);
    assert rooms[..0] == [];
    out, result, calls, whole, once := InPieces32([0x110000, 0x41], strict, [3, 1], 4);
  }

  lemma NoneDone(source: Source, strict: bool)
    ensures !Done(source, strict, [])
  {
  }
}
