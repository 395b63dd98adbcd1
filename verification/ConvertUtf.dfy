/** The converters between UTF-8, UTF-16 and UTF-32, which stop when the target is full and can be resumed. */
module ConvertUtf {
  import opened Unicode

  datatype Outcome = ConversionOK | SourceExhausted | TargetExhausted | SourceIllegal

  // ----- reading one character -----

  /** A character and its size in the source, the end, a character cut off by the end, or one that is illegal. */
  datatype Read = Char(ch: bv32, size: nat) | End | Short | Bad

  datatype Source = Units8(u8: seq<bv8>) | Units16(u16: seq<bv16>) | Units32(u32: seq<bv32>) {
    function Length(): nat {
      match this
      case Units8(s) => |s|
      case Units16(s) => |s|
      case Units32(s) => |s|
    }
  }

  function ReadAt(source: Source, i: nat, strict: bool): (r: Read)
    ensures r.Char? ==> 0 < r.size <= source.Length() - i
    ensures r.End? <==> i >= source.Length()
  {
    match source
    case Units8(s) => Read8(s, i, strict)
    case Units16(s) => Read16(s, i, strict)
    case Units32(s) => Read32(s, i, strict)
  }

  function Read32(s: seq<bv32>, i: nat, strict: bool): (r: Read)
    ensures r.Char? ==> r.size == 1 && i < |s|
    ensures r.End? <==> i >= |s|
  {
    if i >= |s| then End
    else if strict && Surrogate(s[i]) then Bad
    else Char(if s[i] <= MAX_LEGAL then s[i] else REPLACEMENT, 1)
  }

  function Read16(s: seq<bv16>, i: nat, strict: bool): (r: Read)
    ensures r.Char? ==> 0 < r.size <= |s| - i
    ensures r.End? <==> i >= |s|
  {
    if i >= |s| then End
    else
      var ch := s[i] as bv32;
      if High(ch) then
        if i + 1 >= |s| then Short
        else if Low(s[i + 1] as bv32) then Char(Combined(ch, s[i + 1] as bv32), 2)
        else if strict then Bad else Char(ch, 1)
      else if strict && Low(ch) then Bad
      else Char(ch, 1)
  }

  function Read8(s: seq<bv8>, i: nat, strict: bool): (r: Read)
    ensures r.Char? ==> 0 < r.size <= |s| - i
    ensures r.End? <==> i >= |s|
  {
    if i >= |s| then End
    else
      var extra := Trailing(s[i]);
      if i + extra >= |s| then Short
      else if !Legal(s[i..i + extra + 1]) then Bad
      else
        var ch := Decode8(s[i..i + extra + 1]);
        if !Surrogate(ch) then Char(ch, extra + 1)
        else if strict then Bad else Char(REPLACEMENT, extra + 1)
  }

  // ----- reading a text -----

  /** From `i` to `j` the source reads as `text`. */
  ghost predicate Reads(source: Source, strict: bool, i: nat, j: nat, text: seq<bv32>)
    decreases |text|
  {
    if text == [] then i == j
    else
      var r := ReadAt(source, i, strict);
      r.Char? && r.ch == text[0] && Reads(source, strict, i + r.size, j, text[1..])
  }

  /** `text` is all that can be read from `i` on; reading stops at `j`. */
  ghost predicate ReadsAll(source: Source, strict: bool, i: nat, j: nat, text: seq<bv32>) {
    Reads(source, strict, i, j, text) && !ReadAt(source, j, strict).Char?
  }

  lemma {:induction false} ReadsJoin(source: Source, strict: bool, i: nat, j: nat, k: nat, a: seq<bv32>, b: seq<bv32>)
    requires Reads(source, strict, i, j, a) && Reads(source, strict, j, k, b)
    ensures Reads(source, strict, i, k, a + b)
    decreases |a|
  {
    hide ReadAt;
    if a == [] {
      assert a + b == b;
    } else {
      ReadsJoin(source, strict, i + ReadAt(source, i, strict).size, j, k, a[1..], b);
      assert (a + b)[1..] == a[1..] + b;
    }
  }

  lemma ReadsOneMore(source: Source, strict: bool, i: nat, j: nat, text: seq<bv32>)
    requires Reads(source, strict, i, j, text) && ReadAt(source, j, strict).Char?
    ensures var r := ReadAt(source, j, strict); Reads(source, strict, i, j + r.size, text + [r.ch])
  {
    hide ReadAt;
    var r := ReadAt(source, j, strict);
    assert [r.ch][1..] == [];
    ReadsJoin(source, strict, i, j, j + r.size, text, [r.ch]);
  }

  /** What can be read, and where reading stops, is determined. */
  lemma {:induction false} ReadsAllIsUnique(source: Source, strict: bool, i: nat, j: nat, a: seq<bv32>, k: nat,
                                            b: seq<bv32>)
    requires ReadsAll(source, strict, i, j, a) && ReadsAll(source, strict, i, k, b)
    ensures j == k && a == b
    decreases |a|
  {
    hide ReadAt;
    if a != [] && b != [] {
      ReadsAllIsUnique(source, strict, i + ReadAt(source, i, strict).size, j, a[1..], k, b[1..]);
      assert a == [a[0]] + a[1..] && b == [b[0]] + b[1..];
    }
  }

  // ----- reading what was encoded -----

  /** A text in UTF-8 reads back as the text. */
  lemma {:induction false} Utf8Reads(pre: seq<bv8>, text: seq<bv32>, strict: bool)
    requires Scalars(text)
    ensures ReadsAll(Units8(pre + Utf8(text)), strict, |pre|, |pre + Utf8(text)|, text)
    decreases |text|
  {
    hide Read8, Encode8, Scalar;
    var s := pre + Utf8(text);
    if text != [] {
      var b, rest := Encode8(text[0]), Utf8(text[1..]);
      Read8Encoded(pre, text[0], rest, strict);
      assert s == pre + b + rest;
      Utf8Reads(pre + b, text[1..], strict);
    }
  }

  lemma Read8Encoded(pre: seq<bv8>, ch: bv32, rest: seq<bv8>, strict: bool)
    requires Scalar(ch)
    ensures Read8(pre + Encode8(ch) + rest, |pre|, strict) == Char(ch, |Encode8(ch)|)
  {
    hide Encode8, Legal, Decode8, Trailing;
    var b := Encode8(ch);
    var s := pre + b + rest;
    Decode8Inverts(ch);
    assert s[|pre|] == b[0];
    assert s[|pre|..|pre| + |b|] == b;
  }

  /** A text in UTF-16 reads back as the text. */
  lemma {:induction false} Utf16Reads(pre: seq<bv16>, text: seq<bv32>, strict: bool)
    requires Scalars(text)
    ensures ReadsAll(Units16(pre + Utf16(text)), strict, |pre|, |pre + Utf16(text)|, text)
    decreases |text|
  {
    hide Read16, Encode16, Scalar;
    var s := pre + Utf16(text);
    if text != [] {
      var b, rest := Encode16(text[0]), Utf16(text[1..]);
      Read16Encoded(pre, text[0], rest, strict);
      assert s == pre + b + rest;
      Utf16Reads(pre + b, text[1..], strict);
    }
  }

  lemma Read16Encoded(pre: seq<bv16>, ch: bv32, rest: seq<bv16>, strict: bool)
    requires Scalar(ch)
    ensures Read16(pre + Encode16(ch) + rest, |pre|, strict) == Char(ch, |Encode16(ch)|)
  {
    hide Read16, Encode16, Scalar, High, Low, Combined;
    OneOrTwoUnits(ch);
    if ch <= 0xFFFF {
      SingleUnit(ch);
      ReadSingle(pre, Encode16(ch), rest, ch, strict);
    } else {
      PairOfUnits(ch);
      ReadPair(pre, Encode16(ch), rest, ch, strict);
    }
  }

  lemma OneOrTwoUnits(ch: bv32)
    requires Scalar(ch)
    ensures (ch <= 0xFFFF || 0x10000 <= ch <= MAX_LEGAL) && !High(ch) && !Low(ch)
  {
  }

  lemma SingleUnit(ch: bv32)
    requires ch <= 0xFFFF && Scalar(ch)
    ensures |Encode16(ch)| == 1 && Encode16(ch)[0] as bv32 == ch
  {
  }

  lemma PairOfUnits(ch: bv32)
    requires 0x10000 <= ch <= MAX_LEGAL
    ensures var b := Encode16(ch);
              |b| == 2 && High(b[0] as bv32) && Low(b[1] as bv32) && Combined(b[0] as bv32, b[1] as bv32) == ch
  {
    hide HighHalf, LowHalf, Combined;
    Decode16Inverts(ch);
  }

  lemma ReadSingle(pre: seq<bv16>, b: seq<bv16>, rest: seq<bv16>, ch: bv32, strict: bool)
    requires |b| == 1 && b[0] as bv32 == ch && !High(ch) && !Low(ch)
    ensures Read16(pre + b + rest, |pre|, strict) == Char(ch, 1)
  {
    hide Combined, High, Low;
    assert (pre + b + rest)[|pre|] == b[0];
  }

  lemma ReadPair(pre: seq<bv16>, b: seq<bv16>, rest: seq<bv16>, ch: bv32, strict: bool)
    requires |b| == 2 && High(b[0] as bv32) && Low(b[1] as bv32) && Combined(b[0] as bv32, b[1] as bv32) == ch
    ensures Read16(pre + b + rest, |pre|, strict) == Char(ch, 2)
  {
    hide Combined, High, Low;
    var s := pre + b + rest;
    assert s[|pre|] == b[0] && s[|pre| + 1] == b[1];
  }

  lemma {:induction false} TextReads(text: seq<bv32>, i: nat, strict: bool)
    requires Scalars(text) && i <= |text|
    ensures ReadsAll(Units32(text), strict, i, |text|, text[i..])
    decreases |text| - i
  {
    if i < |text| {
      TextReads(text, i + 1, strict);
      assert text[i..][1..] == text[i + 1..];
    }
  }

  // ----- the converters -----

  /** What a call leaves in the target: `out` from `t0` on, nothing else changed. */
  ghost predicate Filled<T>(before: seq<T>, after: seq<T>, t0: nat, out: seq<T>) {
    && |after| == |before| && t0 + |out| <= |before|
    && after[..t0] == before[..t0] && after[t0..t0 + |out|] == out && after[t0 + |out|..] == before[t0 + |out|..]
  }

  /** How a call ends: with the source used up, at a character it cannot read, or for want of room. */
  ghost predicate EndsAs(r: Read, result: Outcome, room: int, need: int) {
    match result
    case ConversionOK => r.End?
    case SourceExhausted => r.Short?
    case SourceIllegal => r.Bad? || r.End?
    case TargetExhausted => !r.End? && room < need
  }

  function Need8(r: Read): int {
    if r.Char? then Size8(r.ch) else 1
  }

  function Need16(r: Read): int {
    if r.Char? then |Encode16(r.ch)| else 1
  }

  /** The bytes of a character, written from the last to the first. */
  method Put8(target: array<bv8>, t: nat, ch: bv32)
    requires t + Size8(ch) <= target.Length
    modifies target
    ensures Filled(old(target[..]), target[..], t, Encode8(ch))
  {
    hide Head, Tail, Rest;
    var n, c := Size8(ch), ch;
    if n >= 4 { target[t + 3], c := Tail(c), Rest(c); }
    if n >= 3 { target[t + 2], c := Tail(c), Rest(c); }
    if n >= 2 { target[t + 1], c := Tail(c), Rest(c); }
    target[t] := Head(c, n);
    PutIs(old(target[..]), target[..], t, Encode8(ch));
  }

  lemma PutIs<T>(before: seq<T>, after: seq<T>, t: nat, out: seq<T>)
    requires |after| == |before| && t + |out| <= |before|
    requires forall k :: 0 <= k < |before| && !(t <= k < t + |out|) ==> after[k] == before[k]
    requires forall k :: 0 <= k < |out| ==> after[t + k] == out[k]
    ensures Filled(before, after, t, out)
  {
  }

  lemma FilledMore<T>(a: seq<T>, b: seq<T>, c: seq<T>, t0: nat, out: seq<T>, more: seq<T>)
    requires Filled(a, b, t0, out) && t0 + |out| <= |b| && Filled(b, c, t0 + |out|, more)
    ensures Filled(a, c, t0, out + more)
  {
    var t1 := t0 + |out|;
    var t2 := t1 + |more|;
    assert c[..t0] == c[..t1][..t0] && b[..t0] == b[..t1][..t0];
    assert c[t0..t1] == c[..t1][t0..] && b[t0..t1] == b[..t1][t0..];
    assert c[t0..t2] == c[t0..t1] + c[t1..t2];
    assert b[t2..] == b[t1..][|more|..] && a[t2..] == a[t1..][|more|..];
  }

  /** Room is measured from where the call started to the end of the target. */
  method ConvertUTF32toUTF8(source: seq<bv32>, s0: nat, target: array<bv8>, t0: nat, strict: bool)
    returns (s: nat, t: nat, result: Outcome, ghost text: seq<bv32>)
    requires s0 <= |source| && t0 <= target.Length
    modifies target
    ensures s0 <= s <= |source| && t == t0 + |Utf8(text)| <= target.Length
    ensures Reads(Units32(source), strict, s0, s, text) && Filled(old(target[..]), target[..], t0, Utf8(text))
    ensures EndsAs(ReadAt(Units32(source), s, strict), result, target.Length - t,
                   Need8(ReadAt(Units32(source), s, strict)))
    ensures result == TargetExhausted ==> ReadAt(Units32(source), s, strict).Char?
    ensures result != TargetExhausted ==> (result == SourceIllegal <==> s < |source| || TooLarge(source, s0, s))
  {
    hide Reads, Utf8, Filled, Encode8, Surrogate, Read32;
    s, t, result, text := s0, t0, ConversionOK, [];
    NothingFilled(target[..], t0);
    NothingRead(Units32(source), strict, s0);
    while s < |source|
      invariant s0 <= s <= |source| && t == t0 + |Utf8(text)| <= target.Length
      invariant Reads(Units32(source), strict, s0, s, text) && Filled(old(target[..]), target[..], t0, Utf8(text))
      invariant result == if TooLarge(source, s0, s) then SourceIllegal else ConversionOK
    {
      ReadThis32(source, s, strict);
      var ch := source[s];
      if strict && Surrogate(ch) {
        return s, t, SourceIllegal, text;
      }
      var r := ReadAt(Units32(source), s, strict);
      if ch > MAX_LEGAL {
        ch := REPLACEMENT;
        result := SourceIllegal;
      }
      var n := Size8(ch);
      if t + n > target.Length {
        return s, t, TargetExhausted, text;
      }
      ghost var before := target[..];
      Put8(target, t, ch);
      FilledMore(old(target[..]), before, target[..], t0, Utf8(text), Encode8(ch));
      OneMore8(text, ch);
      ReadsOneMore(Units32(source), strict, s0, s, text);
      s, t, text := s + 1, t + n, text + [ch];
    }
    AtEnd(Units32(source), s, strict);
  }

  ghost predicate TooLarge(source: seq<bv32>, i: int, j: int) {
    exists k :: i <= k < j && 0 <= k < |source| && source[k] > MAX_LEGAL
  }

  lemma NothingFilled<T>(a: seq<T>, t: nat)
    requires t <= |a|
    ensures Filled(a, a, t, [])
  {
  }

  lemma NothingRead(source: Source, strict: bool, i: nat)
    ensures Reads(source, strict, i, i, []) && Utf8([]) == [] && Utf16([]) == []
  {
  }

  lemma AtEnd(source: Source, i: nat, strict: bool)
    requires i == source.Length()
    ensures ReadAt(source, i, strict) == End
  {
  }

  lemma OneMore8(text: seq<bv32>, ch: bv32)
    ensures Utf8(text + [ch]) == Utf8(text) + Encode8(ch)
  {
    Utf8Join(text, [ch]);
    Utf8One(ch);
  }

  lemma ReadThis32(source: seq<bv32>, s: nat, strict: bool)
    requires s < |source|
    ensures ReadAt(Units32(source), s, strict)
         == if strict && Surrogate(source[s]) then Bad
             else Char(if source[s] > MAX_LEGAL then REPLACEMENT else source[s], 1)
  {
  }

  lemma OneMore16(text: seq<bv32>, ch: bv32)
    ensures Utf16(text + [ch]) == Utf16(text) + Encode16(ch)
  {
    Utf16Join(text, [ch]);
    Utf16One(ch);
  }

  /** One character of UTF-16, as both converters from it read it: `n` is 0 where they stop. */
  method Next16(source: seq<bv16>, s: nat, strict: bool) returns (ch: bv32, n: nat, stop: Outcome)
    requires s < |source|
    ensures n > 0 ==> ReadAt(Units16(source), s, strict) == Char(ch, n) && ch <= MAX_LEGAL
    ensures n == 0 ==> stop == (if ReadAt(Units16(source), s, strict) == Bad then SourceIllegal else SourceExhausted)
    ensures n == 0 ==> ReadAt(Units16(source), s, strict) in {Bad, Short}
  {
    hide Combined;
    ch, n, stop := source[s] as bv32, 1, ConversionOK;
    if High(ch) {
      if s + 1 < |source| {
        var ch2 := source[s + 1] as bv32;
        if Low(ch2) {
          CombinedIsInRange(ch, ch2);
          ch, n := Combined(ch, ch2), 2;
        } else if strict {
          n, stop := 0, SourceIllegal;
        }
      } else {
        n, stop := 0, SourceExhausted;
      }
    } else if strict {
      if Low(ch) { n, stop := 0, SourceIllegal; }
    }
  }

  method ConvertUTF16toUTF8(source: seq<bv16>, s0: nat, target: array<bv8>, t0: nat, strict: bool)
    returns (s: nat, t: nat, result: Outcome, ghost text: seq<bv32>)
    requires s0 <= |source| && t0 <= target.Length
    modifies target
    ensures s0 <= s <= |source| && t == t0 + |Utf8(text)| <= target.Length
    ensures Reads(Units16(source), strict, s0, s, text) && Filled(old(target[..]), target[..], t0, Utf8(text))
    ensures EndsAs(ReadAt(Units16(source), s, strict), result, target.Length - t,
                   Need8(ReadAt(Units16(source), s, strict)))
    ensures result == TargetExhausted ==> ReadAt(Units16(source), s, strict).Char?
    ensures result == SourceIllegal ==> s < |source|
  {
    hide Reads, Utf8, Filled, Encode8, Read16;
    s, t, result, text := s0, t0, ConversionOK, [];
    NothingFilled(target[..], t0);
    NothingRead(Units16(source), strict, s0);
    while s < |source|
      invariant s0 <= s <= |source| && t == t0 + |Utf8(text)| <= target.Length
      invariant Reads(Units16(source), strict, s0, s, text) && Filled(old(target[..]), target[..], t0, Utf8(text))
    {
      var ch, size, stop := Next16(source, s, strict);
      if size == 0 { return s, t, stop, text; }
      var n := Size8(ch);
      if t + n > target.Length { return s, t, TargetExhausted, text; }
      ghost var before := target[..];
      Put8(target, t, ch);
      FilledMore(old(target[..]), before, target[..], t0, Utf8(text), Encode8(ch));
      OneMore8(text, ch);
      ReadsOneMore(Units16(source), strict, s0, s, text);
      s, t, text := s + size, t + n, text + [ch];
    }
    AtEnd(Units16(source), s, strict);
    return s, t, ConversionOK, text;
  }

  method ConvertUTF16toUTF32(source: seq<bv16>, s0: nat, target: array<bv32>, t0: nat, strict: bool)
    returns (s: nat, t: nat, result: Outcome, ghost text: seq<bv32>)
    requires s0 <= |source| && t0 <= target.Length
    modifies target
    ensures s0 <= s <= |source| && t == t0 + |text| <= target.Length
    ensures Reads(Units16(source), strict, s0, s, text) && Filled(old(target[..]), target[..], t0, text)
    ensures EndsAs(ReadAt(Units16(source), s, strict), result, target.Length - t, 1)
    ensures result == TargetExhausted ==> ReadAt(Units16(source), s, strict).Char?
    ensures result == SourceIllegal ==> s < |source|
  {
    hide Reads, Filled, Read16;
    s, t, result, text := s0, t0, ConversionOK, [];
    NothingFilled(target[..], t0);
    NothingRead(Units16(source), strict, s0);
    while s < |source|
      invariant s0 <= s <= |source| && t == t0 + |text| <= target.Length
      invariant Reads(Units16(source), strict, s0, s, text) && Filled(old(target[..]), target[..], t0, text)
    {
      var ch, size, stop := Next16(source, s, strict);
      if size == 0 { return s, t, stop, text; }
      if t >= target.Length { return s, t, TargetExhausted, text; }
      ghost var before := target[..];
      target[t] := ch;
      PutIs(before, target[..], t, [ch]);
      FilledMore(old(target[..]), before, target[..], t0, text, [ch]);
      ReadsOneMore(Units16(source), strict, s0, s, text);
      s, t, text := s + size, t + 1, text + [ch];
    }
    AtEnd(Units16(source), s, strict);
    return s, t, ConversionOK, text;
  }

  /** The bytes of one character of UTF-8, as both converters from it gather them; `n` is 0 where they stop. */
  method Next8(source: seq<bv8>, s: nat) returns (ch: bv32, n: nat, stop: Outcome)
    requires s < |source|
    ensures n > 0 ==> ch <= MAX_LEGAL && s + n <= |source| && forall strict ::
                        ReadAt(Units8(source), s, strict) ==
                            (if !Surrogate(ch) then Char(ch, n) else if strict then Bad else Char(REPLACEMENT, n))
    ensures n == 0 ==> stop in {SourceIllegal, SourceExhausted}
    ensures n == 0 ==> forall strict :: ReadAt(Units8(source), s, strict) == if stop == SourceIllegal then Bad
            else Short
  {
    hide Legal, Decode8, Surrogate;
    var extra := Trailing(source[s]);
    ch, n, stop := 0, 0, ConversionOK;
    if s + extra >= |source| { return 0, 0, SourceExhausted; }
    var b := source[s..s + extra + 1];
    if !Legal(b) { return 0, 0, SourceIllegal; }
    assert b[0] == source[s];
    LegalIsInRange(b);
    ch := Gather(b);
    n := extra + 1;
  }

  /** The loop that the decoding switch unrolls. */
  method Gather(b: seq<bv8>) returns (ch: bv32)
    requires b != []
    ensures ch == Decode8(b)
  {
    hide Joined, Minus;
    ch := 0;
    for k := 0 to |b|
      invariant ch == Gathered(b[..k])
    {
      assert b[..k + 1][..k] == b[..k];
      ch := Joined(ch, b[k]);
    }
    assert b[..|b|] == b;
    ch := Minus(ch, Offset(|b| - 1));
  }

  method ConvertUTF8toUTF32(source: seq<bv8>, s0: nat, target: array<bv32>, t0: nat, strict: bool)
    returns (s: nat, t: nat, result: Outcome, ghost text: seq<bv32>)
    requires s0 <= |source| && t0 <= target.Length
    modifies target
    ensures s0 <= s <= |source| && t == t0 + |text| <= target.Length
    ensures Reads(Units8(source), strict, s0, s, text) && Filled(old(target[..]), target[..], t0, text)
    ensures EndsAs(ReadAt(Units8(source), s, strict), result, target.Length - t, 1)
    ensures result == SourceIllegal ==> s < |source|
  {
    hide Reads, Filled, Read8, Surrogate;
    s, t, result, text := s0, t0, ConversionOK, [];
    NothingFilled(target[..], t0);
    NothingRead(Units8(source), strict, s0);
    while s < |source|
      invariant s0 <= s <= |source| && t == t0 + |text| <= target.Length
      invariant Reads(Units8(source), strict, s0, s, text) && Filled(old(target[..]), target[..], t0, text)
    {
      var ch, size, stop := Next8(source, s);
      if size == 0 { return s, t, stop, text; }
      if t >= target.Length { return s, t, TargetExhausted, text; }
      if Surrogate(ch) {
        if strict { return s, t, SourceIllegal, text; }
        ch := REPLACEMENT;
      }
      ghost var before := target[..];
      target[t] := ch;
      PutIs(before, target[..], t, [ch]);
      FilledMore(old(target[..]), before, target[..], t0, text, [ch]);
      ReadsOneMore(Units8(source), strict, s0, s, text);
      s, t, text := s + size, t + 1, text + [ch];
    }
    AtEnd(Units8(source), s, strict);
    return s, t, ConversionOK, text;
  }

  method ConvertUTF8toUTF16(source: seq<bv8>, s0: nat, target: array<bv16>, t0: nat, strict: bool)
    returns (s: nat, t: nat, result: Outcome, ghost text: seq<bv32>)
    requires s0 <= |source| && t0 <= target.Length
    modifies target
    ensures s0 <= s <= |source| && t == t0 + |Utf16(text)| <= target.Length
    ensures Reads(Units8(source), strict, s0, s, text) && Filled(old(target[..]), target[..], t0, Utf16(text))
    ensures EndsAs(ReadAt(Units8(source), s, strict), result, target.Length - t,
                   Need16(ReadAt(Units8(source), s, strict)))
    ensures result == SourceIllegal ==> s < |source|
  {
    hide Reads, Utf16, Filled, Read8, Surrogate, HighHalf, LowHalf;
    s, t, result, text := s0, t0, ConversionOK, [];
    NothingFilled(target[..], t0);
    NothingRead(Units8(source), strict, s0);
    while s < |source|
      invariant s0 <= s <= |source| && t == t0 + |Utf16(text)| <= target.Length
      invariant Reads(Units8(source), strict, s0, s, text) && Filled(old(target[..]), target[..], t0, Utf16(text))
    {
      var ch, size, stop := Next8(source, s);
      if size == 0 { return s, t, stop, text; }
      if t >= target.Length { return s, t, TargetExhausted, text; }
      if Surrogate(ch) {
        if strict { return s, t, SourceIllegal, text; }
        ch := REPLACEMENT;
      }
      if ch > 0xFFFF && t + 1 >= target.Length { return s, t, TargetExhausted, text; }
      ghost var before := target[..];
      Put16(target, t, ch);
      FilledMore(old(target[..]), before, target[..], t0, Utf16(text), Encode16(ch));
      OneMore16(text, ch);
      ReadsOneMore(Units8(source), strict, s0, s, text);
      s, t, text := s + size, t + |Encode16(ch)|, text + [ch];
    }
    AtEnd(Units8(source), s, strict);
    return s, t, ConversionOK, text;
  }

  method Put16(target: array<bv16>, t: nat, ch: bv32)
    requires t + |Encode16(ch)| <= target.Length
    modifies target
    ensures Filled(old(target[..]), target[..], t, Encode16(ch))
  {
    hide HighHalf, LowHalf;
    if ch <= 0xFFFF {
      target[t] := (ch & 0xFFFF) as bv16;
    } else {
      target[t] := HighHalf(ch);
      target[t + 1] := LowHalf(ch);
    }
    PutIs(old(target[..]), target[..], t, Encode16(ch));
  }
}
